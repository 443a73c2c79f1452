/** Publishing a staged runner tree at `bin.<version>`: four routes, any errno, a crash anywhere. */
module Publish {
  import opened FileTree
  import opened DiskModel
  import opened CopyTree
  import opened InstallLayout

  datatype Route =
    | NotReached       // stopped before the publishing call
    | FreshRename      // nothing there: plain rename
    | FreshCopy        // nothing there, other file system: copy, then remove
    | Exchange         // something there: atomic exchange, then remove
    | RemoveThenRename // exchange not supported
    | CopyThenRemove   // other file system
    | Untouched        // the publishing call failed otherwise

  /** The route taken when nothing is at the published path, by the answer to `rename`. */
  function FreshRoute(answer: Errno): Route {
    match answer
    case OK => FreshRename
    case EXDEV => FreshCopy
    case _ => Untouched
  }

  /** The route taken when something is at the published path, by the answer to `RENAME_EXCHANGE`. */
  function UpgradeRoute(answer: Errno): Route {
    match answer
    case OK => Exchange
    case EINVAL | ENOSYS => RemoveThenRename
    case EXDEV => CopyThenRemove
    case _ => Untouched
  }

  /** The moment of a publish: one state to the next on the atomic routes, never when the call failed. */
  predicate Moment(route: Route, lo: nat, hi: nat, before: nat, after: nat) {
    && lo == before
    && (route.FreshRename? || route.Exchange? ==> lo == hi < after)
    && (route.Untouched? ==> lo == hi == after)
  }

  /** The states `history[start..]` on their way from tree `t0` to tree `n` at the published path: all
      before `lo` show `t0`, all from `hi` on show `n`; in between the path shows what is left of `t0`,
      then a beginning of `n`, never a mix; and everything else is left alone. */
  ghost predicate Passage(l: Layout, from: Fs, history: seq<Fs>, start: nat, lo: nat, hi: nat, t0: Tree, n: Tree) {
    && start <= lo <= hi <= |history|
    && (forall i | start <= i < |history| :: Frame(l, from, history[i]) && Slots(l, history[i]))
    && (forall i | start <= i < lo :: TreeAt(history[i], l.Final()) == t0)
    && (forall i | hi <= i < |history| :: TreeAt(history[i], l.Final()) == n)
    && Changeover(l, history, lo, hi, t0, n)
  }

  ghost predicate Changeover(l: Layout, history: seq<Fs>, lo: nat, hi: nat, t0: Tree, n: Tree)
    requires lo <= hi <= |history|
  {
    && (forall i | lo <= i < hi :: PartOf(TreeAt(history[i], l.Final()), t0) || Beginning(TreeAt(history[i], l.Final()), n))
    && (forall i, j | lo <= i < j < hi ::
          PartOf(TreeAt(history[i], l.Final()), t0) || Beginning(TreeAt(history[j], l.Final()), n))
  }

  /** Until the old tree is gone nothing but what is left of it is seen. */
  ghost predicate OldOnly(l: Layout, history: seq<Fs>, lo: nat, hi: nat, t0: Tree)
    requires lo <= hi <= |history|
  {
    forall i | lo <= i < hi :: PartOf(TreeAt(history[i], l.Final()), t0)
  }

  /** After an exchange that is not supported: no call more if the old tree could not be removed, else one
      plain rename, at a moment when the path is clear. If it succeeds the whole new tree appears in one
      state; only a rename across file systems leaves it to a copy. */
  ghost predicate Renamed(l: Layout, more: seq<RenameCall>, history: seq<Fs>, lo: nat, hi: nat, t0: Tree)
    requires lo <= hi <= |history|
  {
    if more == [] then hi == |history| && OldOnly(l, history, lo, hi, t0)
    else
      var c := more[0];
      && |more| == 1 && !c.exchange && lo < c.at <= hi
      && OldOnly(l, history, lo, c.at, t0) && TreeAt(history[c.at - 1], l.Final()) == map[]
      && (c.answer == OK ==> hi == c.at < |history|)
      && (c.answer !in {OK, EXDEV} ==> hi == |history| && OldOnly(l, history, lo, hi, t0))
  }

  /** How the path changes hands, by the rename calls made and what the kernel answered: in one state, by a
      copy, by a removal and one more rename, or not at all. */
  ghost predicate ByTheCalls(l: Layout, calls: seq<RenameCall>, history: seq<Fs>, lo: nat, hi: nat, t0: Tree)
    requires lo <= hi <= |history|
  {
    if calls == [] then lo == hi == |history|
    else
      var first := calls[0];
      if first.exchange && first.answer in {EINVAL, ENOSYS} then
        lo == first.at && Renamed(l, calls[1..], history, lo, hi, t0)
      else
        && |calls| == 1
        && (if first.answer == OK then lo == hi == first.at < |history|
            else if first.answer == EXDEV then lo == first.at
            else lo == hi == |history|)
  }

  lemma PassageBegins(l: Layout, from: Fs, history: seq<Fs>, t0: Tree, n: Tree)
    ensures Passage(l, from, history, |history|, |history|, |history|, t0, n)
  {}

  /** More states that still show the old tree. */
  lemma PassageWaits(l: Layout, from: Fs, history: seq<Fs>, more: seq<Fs>, start: nat, t0: Tree, n: Tree)
    requires Passage(l, from, history, start, |history|, |history|, t0, n) && history <= more
    requires forall i | |history| <= i < |more| ::
      Frame(l, from, more[i]) && Slots(l, more[i]) && TreeAt(more[i], l.Final()) == t0
    ensures Passage(l, from, more, start, |more|, |more|, t0, n)
  {
    hide TreeAt, Frame, Slots;
  }

  /** More states that show what is left of the old tree. */
  lemma PassageShrinks(l: Layout, from: Fs, history: seq<Fs>, more: seq<Fs>, start: nat, t0: Tree, n: Tree)
    requires Passage(l, from, history, start, |history|, |history|, t0, n) && history <= more
    requires forall i | |history| <= i < |more| ::
      Frame(l, from, more[i]) && Slots(l, more[i]) && PartOf(TreeAt(more[i], l.Final()), t0)
    ensures Passage(l, from, more, start, |history|, |more|, t0, n)
  {
    hide TreeAt, Frame, Slots, PartOf, Beginning;
  }

  /** More states that show a beginning of the new tree. */
  lemma PassageGrows(l: Layout, from: Fs, history: seq<Fs>, more: seq<Fs>, start: nat, lo: nat, t0: Tree, n: Tree)
    requires Passage(l, from, history, start, lo, |history|, t0, n) && history <= more
    requires forall i | |history| <= i < |more| ::
      Frame(l, from, more[i]) && Slots(l, more[i]) && Beginning(TreeAt(more[i], l.Final()), n)
    ensures Passage(l, from, more, start, lo, |more|, t0, n)
  {
    hide TreeAt, Frame, Slots, PartOf, Beginning;
  }

  /** One more state, the first to show the new tree. */
  lemma PassageArrives(l: Layout, from: Fs, history: seq<Fs>, start: nat, lo: nat, t0: Tree, n: Tree, next: Fs)
    requires Passage(l, from, history, start, lo, |history|, t0, n)
    requires Frame(l, from, next) && Slots(l, next) && TreeAt(next, l.Final()) == n
    ensures Passage(l, from, history + [next], start, lo, |history|, t0, n)
  {
    hide TreeAt, Frame, Slots;
  }

  /** More states after arrival. */
  lemma PassageStays(l: Layout, from: Fs, history: seq<Fs>, more: seq<Fs>, start: nat, lo: nat, hi: nat, t0: Tree, n: Tree)
    requires Passage(l, from, history, start, lo, hi, t0, n) && history <= more
    requires forall i | |history| <= i < |more| ::
      Frame(l, from, more[i]) && Slots(l, more[i]) && TreeAt(more[i], l.Final()) == n
    ensures Passage(l, from, more, start, lo, hi, t0, n)
  {
    hide TreeAt, Frame, Slots;
  }

  /** The last state already shows the new tree. */
  lemma PassageHasArrived(l: Layout, from: Fs, history: seq<Fs>, start: nat, lo: nat, t0: Tree, n: Tree)
    requires Passage(l, from, history, start, lo, |history|, t0, n) && lo < |history|
    requires TreeAt(history[|history| - 1], l.Final()) == n
    ensures Passage(l, from, history, start, lo, |history| - 1, t0, n)
  {
    hide TreeAt, Frame, Slots, Changeover;
    ChangeoverEndsSooner(l, history, lo, |history|, |history| - 1, t0, n);
  }

  lemma ChangeoverEndsSooner(l: Layout, history: seq<Fs>, lo: nat, hi: nat, sooner: nat, t0: Tree, n: Tree)
    requires lo <= sooner <= hi <= |history| && Changeover(l, history, lo, hi, t0, n)
    ensures Changeover(l, history, lo, sooner, t0, n)
  {
    hide TreeAt, PartOf, Beginning;
  }

  /** A staged tree fit for publishing. */
  predicate Stageable(n: Tree) {
    IsDirectory(n) && WellFormed(n) && MaskedModes(n)
  }

  /** The disk as publishing finds it. */
  predicate Staged(l: Layout, fs: Fs, n: Tree) {
    && l.Sound() && Slots(l, fs) && TreeAt(fs, l.Staging()) == n && Stageable(n)
    && DirPath(fs, l.home)
  }

  /** What every publishing arm leaves: the whole passage so far, and on success the new tree in
      place and the staging entry gone. */
  ghost predicate Arm(l: Layout, from: Fs, history: seq<Fs>, start: nat, lo: nat, hi: nat, t0: Tree, n: Tree, e: Errno) {
    && history != []
    && var fs := history[|history| - 1];
    && Frame(l, from, fs) && Slots(l, fs)
    && Passage(l, from, history, start, lo, hi, t0, n)
    && (e == OK ==> hi < |history| && TreeAt(fs, l.Final()) == n && TreeAt(fs, l.Staging()) == map[])
  }

  /** A later error changes nothing of this. */
  lemma ArmFails(l: Layout, from: Fs, history: seq<Fs>, start: nat, lo: nat, hi: nat, t0: Tree, n: Tree, e: Errno)
    requires Arm(l, from, history, start, lo, hi, t0, n, OK)
    ensures Arm(l, from, history, start, lo, hi, t0, n, e)
  {
    hide TreeAt, Frame, Slots, Passage;
  }

  /** An error before publishing. */
  lemma ArmWaits(l: Layout, from: Fs, history: seq<Fs>, start: nat, t0: Tree, n: Tree, e: Errno)
    requires history != [] && Frame(l, from, history[|history| - 1]) && Slots(l, history[|history| - 1]) && e != OK
    requires Passage(l, from, history, start, |history|, |history|, t0, n)
    ensures Arm(l, from, history, start, |history|, |history|, t0, n, e)
  {
    hide TreeAt, Frame, Slots, Passage;
  }

  /** Remove what is left at the staging entry once the new tree is published. */
  method DropStaging(disk: Disk, l: Layout, ghost from: Fs, ghost start: nat, ghost lo: nat, ghost hi: nat,
                     ghost t0: Tree, ghost n: Tree) returns (e: Errno)
    requires l.Sound() && disk.Valid() && Frame(l, from, disk.fs) && Slots(l, disk.fs)
    requires Passage(l, from, disk.history, start, lo, hi, t0, n) && hi < |disk.history|
    requires TreeAt(disk.fs, l.Final()) == n && IsDirectory(TreeAt(disk.fs, l.Staging()))
    modifies disk
    ensures disk.Valid() && Arm(l, from, disk.history, start, lo, hi, t0, n, e) && old(disk.history) <= disk.history
    ensures TreeAt(disk.fs, l.Final()) == n
    ensures disk.faults >= old(disk.faults) && (disk.faults == old(disk.faults) ==> e == OK)
  {
    hide TreeAt, Without, Frame, Slots, Passage, LocalTo, RemovalOf, IsDirectory;
    ghost var fs, before := disk.fs, disk.history;
    e := disk.RemoveDirAll(l.Staging());
    forall h | RemovalOf(fs, h, l.Staging())
      ensures Frame(l, from, h) && Slots(l, h) && TreeAt(h, l.Final()) == n
    {
      SlotIsDirOrAbsent(l, fs);
      RemovalIsLocal(fs, h, l.Staging());
      StagingWork(l, fs, h);
      FrameTrans(l, from, fs, h);
    }
    PassageStays(l, from, before, disk.history, start, lo, hi, t0, n);
  }

  lemma SlotIsDirOrAbsent(l: Layout, fs: Fs)
    requires Slots(l, fs)
    ensures DirOrAbsentAt(fs, l.Staging()) && DirOrAbsentAt(fs, l.Final())
  {}

  /** Remove the old tree first. */
  method ClearFinal(disk: Disk, l: Layout, ghost from: Fs, ghost start: nat, ghost t0: Tree, ghost n: Tree)
      returns (e: Errno, ghost lo: nat)
    requires disk.Valid() && Staged(l, disk.fs, n) && Frame(l, from, disk.fs)
    requires IsDirectory(TreeAt(disk.fs, l.Final())) && TreeAt(disk.fs, l.Final()) == t0
    requires Passage(l, from, disk.history, start, |disk.history|, |disk.history|, t0, n)
    modifies disk
    ensures disk.Valid() && old(disk.history) <= disk.history && lo == |old(disk.history)|
    ensures Frame(l, from, disk.fs) && Slots(l, disk.fs)
    ensures Passage(l, from, disk.history, start, lo, |disk.history|, t0, n)
    ensures OldOnly(l, disk.history, lo, |disk.history|, t0)
    ensures e == OK ==> Staged(l, disk.fs, n) && TreeAt(disk.fs, l.Final()) == map[] && lo < |disk.history|
    ensures disk.faults >= old(disk.faults) && (disk.faults == old(disk.faults) ==> e == OK)
  {
    hide TreeAt, Without, Frame, Slots, Passage, OldOnly, RemovalOf, IsDirectory, Staged, PartOf, Layout.Staging, Layout.Final;
    ghost var fs, before := disk.fs, disk.history;
    lo := |before|;
    e := disk.RemoveDirAll(l.Final());
    ClearingShows(l, from, fs, disk.fs, n);
    ClearingStates(l, from, fs, before, disk.history, start, t0, n);
    if e == OK {
      Cleared(l, from, fs, disk.fs, n);
      HistoryGrew(before, disk.history);
    }
  }

  /** While the old tree goes, what is left of it is seen and nothing else changes. */
  lemma ClearingShows(l: Layout, from: Fs, fs: Fs, h: Fs, n: Tree)
    requires Staged(l, fs, n) && Frame(l, from, fs) && RemovalOf(fs, h, l.Final())
    ensures Frame(l, from, h) && Slots(l, h) && PartOf(TreeAt(h, l.Final()), TreeAt(fs, l.Final()))
  {
    hide TreeAt, Without, Frame, Slots, LocalTo, RemovalOf, Stageable, DirPath, PartOf;
    RemovalLeavesPart(fs, h, l.Final());
    SlotIsDirOrAbsent(l, fs);
    RemovalIsLocal(fs, h, l.Final());
    FinalWork(l, fs, h);
    FrameTrans(l, from, fs, h);
  }

  lemma ClearingStates(l: Layout, from: Fs, fs: Fs, before: seq<Fs>, history: seq<Fs>, start: nat, t0: Tree, n: Tree)
    requires Staged(l, fs, n) && Frame(l, from, fs) && TreeAt(fs, l.Final()) == t0 && before <= history
    requires Passage(l, from, before, start, |before|, |before|, t0, n)
    requires forall i | |before| <= i < |history| :: RemovalOf(fs, history[i], l.Final())
    ensures Passage(l, from, history, start, |before|, |history|, t0, n) && OldOnly(l, history, |before|, |history|, t0)
  {
    hide TreeAt, Frame, Slots, Passage, RemovalOf, Staged, PartOf;
    forall i | |before| <= i < |history|
      ensures Frame(l, from, history[i]) && Slots(l, history[i]) && PartOf(TreeAt(history[i], l.Final()), t0)
    {
      ClearingShows(l, from, fs, history[i], n);
    }
    PassageShrinks(l, from, before, history, start, t0, n);
  }

  lemma Cleared(l: Layout, from: Fs, fs: Fs, after: Fs, n: Tree)
    requires Staged(l, fs, n) && Frame(l, from, fs) && after == Without(fs, l.Final())
    requires IsDirectory(TreeAt(fs, l.Final()))
    ensures Staged(l, after, n) && TreeAt(after, l.Final()) == map[] && after != fs
  {
    hide TreeAt, Without, Frame, Slots, LocalTo, Stageable, DirPath;
    RemoveEffect(l, fs, l.Final());
    FinalWork(l, fs, after);
    HomeStays(l, fs, after);
  }

  lemma RemovalLeavesPart(before: Fs, after: Fs, p: Path)
    requires RemovalOf(before, after, p)
    ensures PartOf(TreeAt(after, p), TreeAt(before, p))
  {
    hide TreeAt, Without, PartOf;
  }

  /** The home is not below what moves, so it stays a path of directories. */
  lemma HomeStays(l: Layout, a: Fs, b: Fs)
    requires l.Sound() && DirPath(a, l.home) && Frame(l, a, b)
    ensures DirPath(b, l.home)
  {}

  lemma CopyReady(l: Layout, fs: Fs, n: Tree)
    requires Staged(l, fs, n)
    ensures Apart(l.Staging(), l.Final()) && l.Final() != [] && DirPath(fs, l.Final()[..|l.Final()| - 1])
    ensures TreeAt(fs, l.Staging()) == n && Stageable(n)
    ensures IsDirectory(n) && WellFormed(n) && MaskedModes(n) && n != map[]
  {
    hide TreeAt, DirPath, Slots;
    SoundApart(l);
    StageableParts(n);
    assert l.Final()[..|l.Final()| - 1] == l.home;
  }

  /** Copy the staged tree to the absent path. */
  method CopyStaged(disk: Disk, l: Layout, ghost n: Tree) returns (e: Errno)
    requires disk.Valid() && Staged(l, disk.fs, n) && TreeAt(disk.fs, l.Final()) == map[]
    modifies disk
    ensures disk.Valid() && old(disk.history) <= disk.history
    ensures forall i | |old(disk.history)| <= i < |disk.history| ::
      Growing(old(disk.fs), disk.history[i], l.Final(), n)
    ensures Growing(old(disk.fs), disk.fs, l.Final(), n)
    ensures e == OK ==> TreeAt(disk.fs, l.Final()) == n && |disk.history| > |old(disk.history)|
    ensures disk.faults >= old(disk.faults) && (disk.faults == old(disk.faults) ==> e == OK)
  {
    hide TreeAt, Without, Graft, Slots, LocalTo, Stageable, DirPath, Copied, Apart, Staged, WellFormed, MaskedModes,
      IsDirectory, HeightAtMost, Growing;
    ghost var fs, before := disk.fs, disk.history;
    CopyReady(l, fs, n);
    ghost var height := HeightExists(n);
    e := CopyDirRecursive(disk, l.Staging(), l.Final(), height);
    if e == OK {
      CopyArrives(fs, disk.fs, l.Final(), n);
      HistoryGrew(before, disk.history);
    }
  }

  /** Copy the staged tree to the absent path and remove the staging entry. */
  method CopyIntoPlace(disk: Disk, l: Layout, ghost from: Fs, ghost start: nat, ghost lo: nat,
                       ghost t0: Tree, ghost n: Tree) returns (e: Errno, ghost hi: nat)
    requires disk.Valid() && Staged(l, disk.fs, n) && Frame(l, from, disk.fs)
    requires TreeAt(disk.fs, l.Final()) == map[]
    requires lo <= |disk.history| && Passage(l, from, disk.history, start, lo, |disk.history|, t0, n)
    modifies disk
    ensures disk.Valid() && Arm(l, from, disk.history, start, lo, hi, t0, n, e) && old(disk.history) <= disk.history
    ensures |old(disk.history)| <= hi <= |disk.history|
    ensures disk.faults >= old(disk.faults) && (disk.faults == old(disk.faults) ==> e == OK)
  {
    hide TreeAt, Without, Frame, Slots, Passage, LocalTo, Stageable, DirPath, IsDirectory, Growing, Beginning, Staged,
      Layout.Sound, Layout.Staging, Layout.Final;
    ghost var fs, before := disk.fs, disk.history;
    e := CopyStaged(disk, l, n);
    forall h | Growing(fs, h, l.Final(), n)
      ensures Frame(l, from, h) && Slots(l, h) && TreeAt(h, l.Staging()) == n && Beginning(TreeAt(h, l.Final()), n)
      ensures l.Sound() && IsDirectory(n) && n != map[]
    {
      GrowingShows(l, from, fs, n, h);
    }
    PassageGrows(l, from, before, disk.history, start, lo, t0, n);
    hi := |disk.history|;
    if e != OK {
      return;
    }
    PassageHasArrived(l, from, disk.history, start, lo, t0, n);
    hi := |disk.history| - 1;
    e := DropStaging(disk, l, from, start, lo, hi, t0, n);
  }

  /** While the copy grows at the published path, nothing else changes. */
  lemma GrowingShows(l: Layout, from: Fs, fs: Fs, n: Tree, h: Fs)
    requires Staged(l, fs, n) && Frame(l, from, fs) && Growing(fs, h, l.Final(), n)
    ensures Frame(l, from, h) && Slots(l, h) && TreeAt(h, l.Staging()) == n && Beginning(TreeAt(h, l.Final()), n)
    ensures l.Sound() && IsDirectory(n) && n != map[]
  {
    hide TreeAt, Frame, Slots, LocalTo, Stageable, DirPath, IsDirectory, Growing, Beginning;
    StageableParts(n);
    GrowingParts(fs, h, l.Final(), n);
    FinalWork(l, fs, h);
    FrameTrans(l, from, fs, h);
  }

  lemma GrowingParts(before: Fs, after: Fs, p: Path, n: Tree)
    requires Growing(before, after, p, n)
    ensures LocalTo(before, after, p) && Beginning(TreeAt(after, p), n)
  {
    hide TreeAt, LocalTo, Beginning;
  }

  lemma CopyArrives(fs: Fs, after: Fs, p: Path, n: Tree)
    requires Stageable(n) && TreeAt(fs, p) == map[] && TreeAt(after, p) == Copied(n)
    ensures TreeAt(after, p) == n && after != fs
  {
    hide TreeAt;
    StageableParts(n);
    CopiedMasked(n);
  }

  lemma HistoryGrew<T>(before: seq<T>, after: seq<T>)
    requires before != [] && before <= after && before[|before| - 1] != after[|after| - 1]
    ensures |before| < |after|
  {}

  lemma StageableParts(n: Tree)
    requires Stageable(n)
    ensures IsDirectory(n) && WellFormed(n) && MaskedModes(n) && n != map[]
  {
    assert [] in n;
  }

  /** Rename the staged tree to the absent path: done in one state, or not at all. */
  method RenameStaged(disk: Disk, l: Layout, ghost from: Fs, ghost start: nat, ghost lo: nat, ghost t0: Tree, ghost n: Tree)
      returns (e: Errno)
    requires disk.Valid() && Staged(l, disk.fs, n) && Frame(l, from, disk.fs)
    requires TreeAt(disk.fs, l.Final()) == map[]
    requires Passage(l, from, disk.history, start, lo, |disk.history|, t0, n)
    modifies disk, disk.journal
    ensures disk.Valid() && e == disk.renameAnswer(|old(disk.history)|)
    ensures disk.journal.calls == old(disk.journal.calls) + [RenameCall(false, |old(disk.history)|, e)]
    ensures e == OK ==>
      && |disk.history| == |old(disk.history)| + 1 && old(disk.history) <= disk.history
      && Arm(l, from, disk.history, start, lo, |old(disk.history)|, t0, n, OK)
    ensures e != OK ==> disk.fs == old(disk.fs) && disk.history == old(disk.history) && Slots(l, disk.fs)
    ensures disk.faults == old(disk.faults) + if e in {OK, EXDEV} then 0 else 1
  {
    hide TreeAt, Without, Graft, Frame, Slots, Passage, LocalTo, Stageable, DirPath;
    ghost var fs, before := disk.fs, disk.history;
    SoundApart(l);
    StageableParts(n);
    RootOf(fs, l.Staging());
    assert l.Final()[..|l.Final()| - 1] == l.home;
    e := disk.Rename(l.Staging(), l.Final());
    if e == OK {
      RenameEffect(l, fs);
      FrameTrans(l, from, fs, disk.fs);
      PassageArrives(l, from, before, start, lo, t0, n, disk.fs);
    }
  }

  /** A call that failed without effect leaves things as they are. */
  lemma ArmStays(disk: Disk, l: Layout, from: Fs, start: nat, lo: nat, t0: Tree, n: Tree, e: Errno)
    requires disk.Valid() && Slots(l, disk.fs) && Frame(l, from, disk.fs) && e != OK
    requires Passage(l, from, disk.history, start, lo, |disk.history|, t0, n)
    ensures Arm(l, from, disk.history, start, lo, |disk.history|, t0, n, e)
  {
    hide TreeAt, Frame, Slots, Passage;
  }

  /** Nothing at the published path yet: rename, or copy across file systems. */
  method PublishFresh(disk: Disk, l: Layout, ghost from: Fs, ghost start: nat, ghost t0: Tree, ghost n: Tree)
      returns (e: Errno, ghost lo: nat, ghost hi: nat, ghost route: Route)
    requires disk.Valid() && Staged(l, disk.fs, n) && Frame(l, from, disk.fs)
    requires TreeAt(disk.fs, l.Final()) == map[] == t0
    requires Passage(l, from, disk.history, start, |disk.history|, |disk.history|, t0, n)
    modifies disk, disk.journal
    ensures disk.journal.calls == old(disk.journal.calls)
      + [RenameCall(false, |old(disk.history)|, disk.renameAnswer(|old(disk.history)|))]
    ensures lo <= hi <= |disk.history|
      && ByTheCalls(l, disk.journal.calls[|old(disk.journal.calls)|..], disk.history, lo, hi, t0)
    ensures disk.Valid() && Arm(l, from, disk.history, start, lo, hi, t0, n, e) && old(disk.history) <= disk.history
    ensures route == FreshRoute(disk.renameAnswer(|old(disk.history)|))
    ensures Moment(route, lo, hi, |old(disk.history)|, |disk.history|)
    ensures route.Untouched? ==> disk.fs == old(disk.fs) && e != OK
    ensures disk.faults >= old(disk.faults) && (disk.faults == old(disk.faults) ==> e == OK)
  {
    hide TreeAt, Frame, Slots, Passage, Staged, Arm, Layout.Sound, Layout.Staging, Layout.Final;
    lo, hi, route := |disk.history|, |disk.history|, Untouched;
    e := RenameStaged(disk, l, from, start, lo, t0, n);
    if e == OK {
      route := FreshRename;
    } else if e == EXDEV {
      route := FreshCopy;
      e, hi := CopyIntoPlace(disk, l, from, start, lo, t0, n);
    } else {
      ArmStays(disk, l, from, start, lo, t0, n, e);
    }
  }

  /** The exchange is not supported: remove the old tree, then rename or copy. */
  method ClearAndRename(disk: Disk, l: Layout, ghost from: Fs, ghost start: nat, ghost t0: Tree, ghost n: Tree)
      returns (e: Errno, ghost lo: nat, ghost hi: nat)
    requires disk.Valid() && Staged(l, disk.fs, n) && Frame(l, from, disk.fs)
    requires IsDirectory(TreeAt(disk.fs, l.Final())) && TreeAt(disk.fs, l.Final()) == t0
    requires Passage(l, from, disk.history, start, |disk.history|, |disk.history|, t0, n)
    modifies disk, disk.journal
    ensures old(disk.journal.calls) <= disk.journal.calls
    ensures disk.Valid() && Arm(l, from, disk.history, start, lo, hi, t0, n, e) && old(disk.history) <= disk.history
    ensures lo == |old(disk.history)| <= hi <= |disk.history|
      && Renamed(l, disk.journal.calls[|old(disk.journal.calls)|..], disk.history, lo, hi, t0)
    ensures disk.faults >= old(disk.faults) && (disk.faults == old(disk.faults) ==> e == OK)
  {
    hide TreeAt, Frame, Slots, Passage, Staged, Arm, IsDirectory, OldOnly, Layout.Sound, Layout.Staging, Layout.Final;
    e, lo := ClearFinal(disk, l, from, start, t0, n);
    hi := |disk.history|;
    if e != OK {
      ArmStays(disk, l, from, start, lo, t0, n, e);
      return;
    }
    ghost var calls, states := |disk.journal.calls|, disk.history;
    e := RenameStaged(disk, l, from, start, lo, t0, n);
    if e == EXDEV {
      e, hi := CopyIntoPlace(disk, l, from, start, lo, t0, n);
    } else if e != OK {
      ArmStays(disk, l, from, start, lo, t0, n, e);
    }
    OldOnlyThen(l, states, disk.history, lo, t0);
    assert disk.journal.calls[calls..] == [RenameCall(false, |states|, disk.renameAnswer(|states|))];
  }

  lemma OldOnlyThen(l: Layout, history: seq<Fs>, more: seq<Fs>, lo: nat, t0: Tree)
    requires lo <= |history| && history <= more && OldOnly(l, history, lo, |history|, t0)
    ensures OldOnly(l, more, lo, |history|, t0)
  {
    hide TreeAt, PartOf;
  }

  lemma Exchanged(l: Layout, from: Fs, fs: Fs, after: Fs, history: seq<Fs>, start: nat, t0: Tree, n: Tree)
    requires Staged(l, fs, n) && Frame(l, from, fs) && TreeAt(fs, l.Final()) == t0
    requires after == Graft(Graft(fs, l.Staging(), t0), l.Final(), n)
    requires Passage(l, from, history, start, |history|, |history|, t0, n)
    ensures Frame(l, from, after) && Slots(l, after)
    ensures TreeAt(after, l.Final()) == n && TreeAt(after, l.Staging()) == t0
    ensures Passage(l, from, history + [after], start, |history|, |history|, t0, n)
  {
    hide TreeAt, Graft, Frame, Slots, Passage, Stageable, DirPath;
    ExchangeEffect(l, fs);
    FrameTrans(l, from, fs, after);
    PassageArrives(l, from, history, start, |history|, t0, n, after);
  }

  /** The exchange crosses file systems: remove the old tree, then copy. */
  method ClearAndCopy(disk: Disk, l: Layout, ghost from: Fs, ghost start: nat, ghost t0: Tree, ghost n: Tree)
      returns (e: Errno, ghost lo: nat, ghost hi: nat)
    requires disk.Valid() && Staged(l, disk.fs, n) && Frame(l, from, disk.fs)
    requires IsDirectory(TreeAt(disk.fs, l.Final())) && TreeAt(disk.fs, l.Final()) == t0
    requires Passage(l, from, disk.history, start, |disk.history|, |disk.history|, t0, n)
    modifies disk
    ensures disk.Valid() && Arm(l, from, disk.history, start, lo, hi, t0, n, e) && old(disk.history) <= disk.history
    ensures lo == |old(disk.history)| <= hi <= |disk.history|
    ensures disk.faults >= old(disk.faults) && (disk.faults == old(disk.faults) ==> e == OK)
  {
    hide TreeAt, Frame, Slots, Passage, Staged, IsDirectory, OldOnly, Layout.Sound, Layout.Staging, Layout.Final;
    e, lo := ClearFinal(disk, l, from, start, t0, n);
    hi := |disk.history|;
    if e == OK {
      e, hi := CopyIntoPlace(disk, l, from, start, lo, t0, n);
    }
  }

  /** The exchange itself. */
  method ExchangeStaged(disk: Disk, l: Layout, ghost from: Fs, ghost start: nat, ghost t0: Tree, ghost n: Tree)
      returns (e: Errno)
    requires disk.Valid() && Staged(l, disk.fs, n) && Frame(l, from, disk.fs)
    requires TreeAt(disk.fs, l.Final()) == t0 && IsDirectory(t0)
    requires Passage(l, from, disk.history, start, |disk.history|, |disk.history|, t0, n)
    modifies disk, disk.journal
    ensures disk.journal.calls == old(disk.journal.calls) + [RenameCall(true, |old(disk.history)|, e)]
    ensures disk.Valid() && e == disk.exchangeAnswer(|old(disk.history)|)
    ensures l.Sound() && Slots(l, disk.fs)
    ensures e == OK ==>
      && Frame(l, from, disk.fs) && disk.history == old(disk.history) + [disk.fs]
      && TreeAt(disk.fs, l.Final()) == n && TreeAt(disk.fs, l.Staging()) == t0
      && Passage(l, from, disk.history, start, |old(disk.history)|, |old(disk.history)|, t0, n)
    ensures e != OK ==> disk.fs == old(disk.fs) && disk.history == old(disk.history)
    ensures disk.faults >= old(disk.faults)
    ensures disk.faults == old(disk.faults) ==> e in {OK, EINVAL, ENOSYS, EXDEV}
  {
    hide TreeAt, Without, Graft, Frame, Slots, Passage, LocalTo, Stageable, DirPath;
    ghost var fs, before := disk.fs, disk.history;
    SoundApart(l);
    StageableParts(n);
    RootOf(fs, l.Staging());
    RootOf(fs, l.Final());
    e := disk.RenameExchange(l.Staging(), l.Final());
    if e == OK {
      Exchanged(l, from, fs, disk.fs, before, start, t0, n);
    }
  }

  /** Something at the published path: exchange, or one of the two degraded routes. */
  method PublishUpgrade(disk: Disk, l: Layout, ghost from: Fs, ghost start: nat, ghost t0: Tree, ghost n: Tree)
      returns (e: Errno, ghost lo: nat, ghost hi: nat, ghost route: Route)
    requires disk.Valid() && Staged(l, disk.fs, n) && Frame(l, from, disk.fs)
    requires TreeAt(disk.fs, l.Final()) == t0 && IsDirectory(t0)
    requires Passage(l, from, disk.history, start, |disk.history|, |disk.history|, t0, n)
    modifies disk, disk.journal
    ensures old(disk.journal.calls)
      + [RenameCall(true, |old(disk.history)|, disk.exchangeAnswer(|old(disk.history)|))] <= disk.journal.calls
    ensures lo <= hi <= |disk.history|
      && ByTheCalls(l, disk.journal.calls[|old(disk.journal.calls)|..], disk.history, lo, hi, t0)
    ensures disk.Valid() && Arm(l, from, disk.history, start, lo, hi, t0, n, e) && old(disk.history) <= disk.history
    ensures route == UpgradeRoute(disk.exchangeAnswer(|old(disk.history)|))
    ensures Moment(route, lo, hi, |old(disk.history)|, |disk.history|)
    ensures route.Untouched? ==> disk.fs == old(disk.fs) && e != OK
    ensures disk.faults >= old(disk.faults) && (disk.faults == old(disk.faults) ==> e == OK)
  {
    hide TreeAt, Frame, Slots, Passage, Staged, Arm, IsDirectory, Renamed, Layout.Sound, Layout.Staging, Layout.Final;
    lo, hi, route := |disk.history|, |disk.history|, Untouched;
    e := ExchangeStaged(disk, l, from, start, t0, n);
    match e {
      case OK =>
        route := Exchange;
        e := DropStaging(disk, l, from, start, lo, hi, t0, n);
      case EINVAL | ENOSYS =>
        route := RemoveThenRename;
        e, lo, hi := ClearAndRename(disk, l, from, start, t0, n);
      case EXDEV =>
        route := CopyThenRemove;
        e, lo, hi := ClearAndCopy(disk, l, from, start, t0, n);
      case _ =>
        ArmStays(disk, l, from, start, lo, t0, n, e);
    }
  }
}
