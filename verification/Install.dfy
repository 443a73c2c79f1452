/** Installing a runner version: stage it, publish it, clean up after a failure; and what a crashed or
    failed install leaves for the next one. */
module Install {
  import opened FileTree
  import opened DiskModel
  import opened Extraction
  import opened SafePaths
  import opened CopyTree
  import opened InstallLayout
  import opened Publish

  const PUBLIC_DIR_MODE: nat := 0x1ED // 0o755

  /** The published tree opened up to the runner's user. */
  function Opened(n: Tree): Tree {
    n[[] := Dir(PUBLIC_DIR_MODE)]
  }

  /** All that is assumed of the tar crate: that it unpacks this tarball inside the staging entry. */
  ghost predicate TarWorks(entries: seq<TarEntry>, tar: Tar, l: Layout) {
    Contained(entries, tar, l.Staging()) && PlainNames(l.Staging())
  }

  /** The tree this tarball makes of the staging entry of this disk. */
  function Unpacked(l: Layout, entries: seq<TarEntry>, tar: Tar, fs: Fs): Tree {
    TarTree(entries, tar, fs, l.Staging())
  }

  /** On this disk every entry is good and is unpacked, its parent then in the staging entry. */
  predicate Good(l: Layout, entries: seq<TarEntry>, tar: Tar, fs: Fs) {
    GoodTarball(entries, tar, fs, l.Staging(), l.Staging())
  }

  /** The states after `before` begin with those of this extraction, all of it or up to where it stops. */
  ghost predicate Extracts(before: seq<Fs>, history: seq<Fs>, l: Layout, entries: seq<TarEntry>, tar: Tar) {
    exists m: nat, run |
      m <= |history| && Extracting(before, history[..m], entries, tar, l.Staging(), run) :: run.stopped || run.done == |entries|
  }

  lemma ExtractsNow(before: seq<Fs>, history: seq<Fs>, l: Layout, entries: seq<TarEntry>, tar: Tar, run: Run)
    requires Extracting(before, history, entries, tar, l.Staging(), run) && (run.stopped || run.done == |entries|)
    ensures Extracts(before, history, l, entries, tar)
  {
    hide Extracting;
    assert history[..|history|] == history;
  }

  lemma ExtractsEarlier(before: seq<Fs>, history: seq<Fs>, more: seq<Fs>, l: Layout, entries: seq<TarEntry>, tar: Tar)
    requires Extracts(before, history, l, entries, tar) && history <= more
    ensures Extracts(before, more, l, entries, tar)
  {
    hide Extracting;
    var m: nat, run :| m <= |history| && Extracting(before, history[..m], entries, tar, l.Staging(), run)
      && (run.stopped || run.done == |entries|);
    assert history[..m] == more[..m];
  }

  /** What the contract of the extraction comes to for the staging entry. */
  lemma StagedQuietly(before: seq<Fs>, history: seq<Fs>, l: Layout, entries: seq<TarEntry>, tar: Tar, run: Run, e: Errno,
                      faulty: bool)
    requires l.Sound() && TarWorks(entries, tar, l) && before != [] && before <= history
    requires Fresh(before[|before| - 1], l.Staging()) && run.made == []
    requires e == OK ==> Extracting(before, history, entries, tar, l.Staging(), run) && run.done == |entries| && !run.stopped
    requires e != OK ==>
      || (Extracting(before, history, entries, tar, l.Staging(), run) && run.stopped)
      || (NotBegun(before, history, l.Staging(), run)
          && (faulty || !OnlyDirs(before[|before| - 1], l.Staging())
              || Resolve(history[|history| - 1], [], l.Staging(), MAX_SYMLINKS).None?))
    ensures forall i | |before| <= i < |history| :: LocalTo(before[|before| - 1], history[i], l.Staging())
    ensures e != OK && !faulty ==> !Good(l, entries, tar, before[|before| - 1])
    ensures e == OK || !faulty ==> Extracts(before, history, l, entries, tar)
    ensures e == OK ==>
      && Good(l, entries, tar, before[|before| - 1]) && Stageable(Unpacked(l, entries, tar, before[|before| - 1]))
      && TreeAt(history[|history| - 1], l.Staging()) == Unpacked(l, entries, tar, before[|before| - 1])
  {
    hide TreeAt, LocalTo, Contained, PlainNames, Extracting, Resolve, GoodTarball, TarTree, Layout.Staging, Layout.Sound,
      WellFormed, MaskedModes, IsDirectory, Extracts;
    var fs := before[|before| - 1];
    if e == OK || (Extracting(before, history, entries, tar, l.Staging(), run) && run.stopped) {
      QuietExtraction(before, history, entries, tar, l.Staging(), run);
      ExtractsNow(before, history, l, entries, tar, run);
    } else {
      assert before + [] == before;
      RealPathIsCanonical(fs, l.Staging());
    }
  }

  /** Unpack the tarball into the staging entry. */
  method ExtractQuietly(disk: Disk, l: Layout, entries: seq<TarEntry>, tar: Tar) returns (e: Errno)
    requires disk.Valid() && l.Sound() && TarWorks(entries, tar, l) && Fresh(disk.fs, l.Staging())
    modifies disk
    ensures disk.Valid() && old(disk.history) <= disk.history && disk.faults >= old(disk.faults)
    ensures forall i | |old(disk.history)| <= i < |disk.history| :: LocalTo(old(disk.fs), disk.history[i], l.Staging())
    ensures |old(disk.history)| < |disk.history| || disk.fs == old(disk.fs)
    ensures e == OK ==>
      && TreeAt(disk.fs, l.Staging()) == Unpacked(l, entries, tar, old(disk.fs))
      && Stageable(Unpacked(l, entries, tar, old(disk.fs))) && Good(l, entries, tar, old(disk.fs))
    ensures disk.faults == old(disk.faults) && Good(l, entries, tar, old(disk.fs)) ==> e == OK
    ensures e == OK || disk.faults == old(disk.faults) ==> Extracts(old(disk.history), disk.history, l, entries, tar)
  {
    hide TreeAt, LocalTo, OnlyDirs, Extracting, NotBegun, UnpackAll, AcceptedMembers, DirPath,
      GoodTarball, Good, Unpacked, Extracts, Stageable, TarWorks, Resolve, Layout.Staging, Layout.Sound, TarTree;
    ghost var before := disk.history;
    ghost var run;
    e, run := ExtractTarball(disk, entries, tar, l.Staging());
    StagedQuietly(before, disk.history, l, entries, tar, run, e, disk.faults > old(disk.faults));
    LastIsNewOrOld(before, disk.history);
  }

  /** Unpack the tarball into the staging entry; the published path does not notice. Success means that
      all of the tarball is there. */
  method Stage(disk: Disk, l: Layout, entries: seq<TarEntry>, tar: Tar, ghost from: Fs) returns (e: Errno)
    requires disk.Valid() && l.Sound() && Slots(l, disk.fs) && Frame(l, from, disk.fs) && TarWorks(entries, tar, l)
    requires Fresh(disk.fs, l.Staging())
    modifies disk
    ensures disk.Valid() && old(disk.history) <= disk.history && disk.faults >= old(disk.faults)
    ensures forall i | |old(disk.history)| <= i < |disk.history| ::
      && Frame(l, from, disk.history[i]) && Slots(l, disk.history[i])
      && TreeAt(disk.history[i], l.Final()) == TreeAt(old(disk.fs), l.Final())
    ensures Frame(l, from, disk.fs) && Slots(l, disk.fs) && Frame(l, old(disk.fs), disk.fs)
    ensures TreeAt(disk.fs, l.Final()) == TreeAt(old(disk.fs), l.Final())
    ensures e == OK ==>
      && TreeAt(disk.fs, l.Staging()) == Unpacked(l, entries, tar, old(disk.fs))
      && Stageable(Unpacked(l, entries, tar, old(disk.fs))) && Good(l, entries, tar, old(disk.fs))
    ensures disk.faults == old(disk.faults) && Good(l, entries, tar, old(disk.fs)) ==> e == OK
    ensures e == OK || disk.faults == old(disk.faults) ==> Extracts(old(disk.history), disk.history, l, entries, tar)
  {
    hide TreeAt, Without, Frame, Slots, LocalTo, Fresh, Good, Unpacked, Extracts, Stageable, TarWorks, Layout.Staging,
      Layout.Final, Layout.Sound;
    ghost var fs := disk.fs;
    e := ExtractQuietly(disk, l, entries, tar);
    forall h | LocalTo(fs, h, l.Staging())
      ensures Frame(l, from, h) && Slots(l, h) && TreeAt(h, l.Final()) == TreeAt(fs, l.Final()) && Frame(l, fs, h)
    {
      StagingWork(l, fs, h);
      FrameTrans(l, from, fs, h);
    }
    FrameSelf(l, fs);
  }

  lemma LastIsNewOrOld(before: seq<Fs>, history: seq<Fs>)
    requires before != [] && before <= history
    ensures |before| < |history| || history[|history| - 1] == before[|before| - 1]
  {}

  /** Make the runner home; neither slot notices. */
  method MakeParent(disk: Disk, l: Layout, p: Path, ghost from: Fs) returns (e: Errno)
    requires disk.Valid() && l.Sound() && Slots(l, disk.fs) && Frame(l, from, disk.fs)
    requires p == l.home || p == l.stagingRoot
    modifies disk
    ensures disk.Valid() && old(disk.history) <= disk.history && disk.faults >= old(disk.faults)
    ensures forall i | |old(disk.history)| <= i < |disk.history| ::
      && Frame(l, from, disk.history[i]) && Slots(l, disk.history[i])
      && TreeAt(disk.history[i], l.Final()) == TreeAt(old(disk.fs), l.Final())
    ensures Frame(l, from, disk.fs) && Slots(l, disk.fs)
    ensures TreeAt(disk.fs, l.Final()) == TreeAt(old(disk.fs), l.Final())
    ensures TreeAt(disk.fs, l.Staging()) == TreeAt(old(disk.fs), l.Staging())
    ensures e == OK ==> DirPath(disk.fs, p)
    ensures disk.faults == old(disk.faults) && OnlyDirs(old(disk.fs), p) ==> e == OK
  {
    hide TreeAt, Frame, Slots, MkdirsOf, DirPath, OnlyDirs;
    ghost var fs := disk.fs;
    e := disk.CreateDirAll(p);
    forall h | MkdirsOf(fs, h, p)
      ensures Frame(l, from, h) && Slots(l, h)
      ensures TreeAt(h, l.Final()) == TreeAt(fs, l.Final()) && TreeAt(h, l.Staging()) == TreeAt(fs, l.Staging())
    {
      MkdirEffect(l, fs, h, p);
      FrameTrans(l, from, fs, h);
    }
  }

  lemma SlotIsDirectory(l: Layout, fs: Fs)
    requires Slots(l, fs)
    ensures l.Final() in fs ==> TreeAt(fs, l.Final()) != map[]
    ensures if l.Final() in fs then IsDirectory(TreeAt(fs, l.Final())) else TreeAt(fs, l.Final()) == map[]
    ensures if l.Staging() in fs then IsDirectory(TreeAt(fs, l.Staging())) else TreeAt(fs, l.Staging()) == map[]
  {
    hide TreeAt;
    RootOf(fs, l.Final());
    RootOf(fs, l.Staging());
  }

  lemma IsStaged(l: Layout, fs: Fs, n: Tree)
    requires l.Sound() && Slots(l, fs) && TreeAt(fs, l.Staging()) == n && Stageable(n) && DirPath(fs, l.home)
    ensures Staged(l, fs, n)
  {
    hide TreeAt, Slots, DirPath, Stageable;
  }

  lemma StagedSlots(l: Layout, fs: Fs, n: Tree)
    requires Staged(l, fs, n)
    ensures l.Sound() && Slots(l, fs) && DirPath(fs, l.home)
  {
    hide TreeAt, Slots, DirPath, Stageable;
  }

  /** The route of a publish, by the first of the rename calls it made. */
  function RouteOf(calls: seq<RenameCall>, t0: Tree): Route {
    if calls == [] then NotReached
    else if t0 == map[] then FreshRoute(calls[0].answer)
    else UpgradeRoute(calls[0].answer)
  }

  /** The first call is the one that fits what was at the published path. */
  predicate FirstCall(calls: seq<RenameCall>, t0: Tree) {
    calls != [] ==> (calls[0].exchange <==> t0 != map[])
  }

  /** The rename calls made after the first `n`. */
  function Since(calls: seq<RenameCall>, n: nat): seq<RenameCall> {
    if n <= |calls| then calls[n..] else []
  }

  lemma SinceFirst(before: seq<RenameCall>, calls: seq<RenameCall>, first: RenameCall)
    requires before + [first] <= calls
    ensures before <= calls && Since(calls, |before|) != [] && Since(calls, |before|)[0] == first
    ensures Since(calls, |before|) == calls[|before|..]
  {}

  /** What `extract_and_swap_from_file` leaves: a passage from `t0` to `n` whose route and moment are
      those of the publishing call; none if publishing was not reached. */
  ghost predicate Swapped(l: Layout, from: Fs, calls: seq<RenameCall>, history: seq<Fs>, start: nat, lo: nat, hi: nat,
                          t0: Tree, n: Tree, e: Errno, route: Route) {
    && Arm(l, from, history, start, lo, hi, t0, n, e)
    && FirstCall(calls, t0) && route == RouteOf(calls, t0)
    && (if calls == [] then lo == hi == |history| && e != OK else Moment(route, lo, hi, calls[0].at, |history|))
    && lo <= hi <= |history| && ByTheCalls(l, calls, history, lo, hi, t0)
  }

  lemma SwappedBy(l: Layout, from: Fs, calls: seq<RenameCall>, history: seq<Fs>, start: nat, lo: nat, hi: nat,
                  t0: Tree, n: Tree, e: Errno, route: Route)
    requires Arm(l, from, history, start, lo, hi, t0, n, e) && calls != [] && FirstCall(calls, t0)
    requires route == RouteOf(calls, t0) && Moment(route, lo, hi, calls[0].at, |history|)
    requires lo <= hi <= |history| && ByTheCalls(l, calls, history, lo, hi, t0)
    ensures Swapped(l, from, calls, history, start, lo, hi, t0, n, e, route)
  {
    hide Arm, Moment, RouteOf, FirstCall, ByTheCalls;
  }

  /** Publish the staged tree by whichever route the kernel allows. */
  method PublishStaged(disk: Disk, l: Layout, ghost from: Fs, ghost start: nat, ghost t0: Tree, ghost n: Tree)
      returns (e: Errno, ghost lo: nat, ghost hi: nat, ghost route: Route)
    requires disk.Valid() && Staged(l, disk.fs, n) && Frame(l, from, disk.fs) && TreeAt(disk.fs, l.Final()) == t0
    requires Passage(l, from, disk.history, start, |disk.history|, |disk.history|, t0, n)
    modifies disk, disk.journal
    ensures disk.Valid() && old(disk.history) <= disk.history && old(disk.journal.calls) <= disk.journal.calls
    ensures var calls := Since(disk.journal.calls, |old(disk.journal.calls)|);
      && calls != [] && calls[0].at == |old(disk.history)|
      && Swapped(l, from, calls, disk.history, start, lo, hi, t0, n, e, route)
    ensures disk.faults >= old(disk.faults) && (disk.faults == old(disk.faults) ==> e == OK)
  {
    hide TreeAt, Frame, Slots, Passage, Stageable, DirPath, Arm, IsDirectory, Staged, Swapped, Since, ByTheCalls,
      Layout.Sound, Layout.Staging, Layout.Final;
    StagedSlots(l, disk.fs, n);
    SlotIsDirectory(l, disk.fs);
    ghost var calls, at := disk.journal.calls, |disk.history|;
    if l.Final() in disk.fs {
      e, lo, hi, route := PublishUpgrade(disk, l, from, start, t0, n);
      SinceFirst(calls, disk.journal.calls, RenameCall(true, at, disk.exchangeAnswer(at)));
    } else {
      e, lo, hi, route := PublishFresh(disk, l, from, start, t0, n);
      SinceFirst(calls, disk.journal.calls, RenameCall(false, at, disk.renameAnswer(at)));
    }
    SwappedBy(l, from, Since(disk.journal.calls, |calls|), disk.history, start, lo, hi, t0, n, e, route);
  }

  /** The home was flushed once the whole new tree was there. */
  ghost predicate HomeFlushed(disk: Disk, l: Layout, hi: nat)
    reads disk
  {
    l.home in disk.flushed && hi < disk.flushed[l.home]
  }

  /** Flush the two parent directories; only the home's failure is reported. */
  method Settle(disk: Disk, l: Layout) returns (e: Errno)
    requires disk.Valid()
    modifies disk
    ensures disk.Valid() && disk.fs == old(disk.fs) && disk.history == old(disk.history)
    ensures disk.faults >= old(disk.faults)
    ensures disk.faults == old(disk.faults) && l.home in disk.fs && disk.fs[l.home].Dir? ==> e == OK
    ensures e == OK ==> l.home in disk.flushed && disk.flushed[l.home] == |disk.history|
  {
    e := disk.FsyncDirectory(l.home);
    if e == OK {
      var ignored := disk.FsyncDirectory(l.stagingRoot);
    }
  }

  lemma HomeIsThere(l: Layout, a: Fs, b: Fs)
    requires l.Sound() && DirPath(a, l.home) && Frame(l, a, b)
    ensures l.home in b && b[l.home].Dir?
  {
    hide Frame;
    HomeStays(l, a, b);
    assert Prefix(l.home, |l.home|) == l.home;
  }

  /** Everything up to publishing. */
  method StageForPublish(disk: Disk, l: Layout, entries: seq<TarEntry>, tar: Tar, ghost from: Fs, ghost start: nat,
                         ghost t0: Tree) returns (e: Errno, ghost n: Tree)
    requires disk.Valid() && l.Sound() && Slots(l, disk.fs) && Frame(l, from, disk.fs)
    requires Fresh(disk.fs, l.Staging()) && TarWorks(entries, tar, l)
    requires TreeAt(disk.fs, l.Final()) == t0
    requires Passage(l, from, disk.history, start, |disk.history|, |disk.history|, t0, Unpacked(l, entries, tar, disk.fs))
    modifies disk
    ensures n == Unpacked(l, entries, tar, old(disk.fs)) && disk.Valid() && old(disk.history) <= disk.history
    ensures Passage(l, from, disk.history, start, |disk.history|, |disk.history|, t0, n)
    ensures Frame(l, from, disk.fs) && Slots(l, disk.fs)
    ensures e == OK ==> Staged(l, disk.fs, n) && TreeAt(disk.fs, l.Final()) == t0 && Good(l, entries, tar, old(disk.fs))
    ensures disk.faults >= old(disk.faults)
    ensures disk.faults == old(disk.faults) && OnlyDirs(old(disk.fs), l.home) && Good(l, entries, tar, old(disk.fs)) ==> e == OK
    ensures e == OK || disk.faults == old(disk.faults) ==> Extracts(old(disk.history), disk.history, l, entries, tar)
  {
    hide TreeAt, Frame, Slots, Passage, Stageable, DirPath, TarWorks, Fresh, Good, Unpacked, Extracts, OnlyDirs, Staged, Apart,
      Layout.Sound, Layout.Staging, Layout.Final;
    ghost var fs, before := disk.fs, disk.history;
    n := Unpacked(l, entries, tar, fs);
    e := Stage(disk, l, entries, tar, from);
    PassageWaits(l, from, before, disk.history, start, t0, n);
    if e != OK {
      return;
    }
    if OnlyDirs(fs, l.home) { PathStays(l, fs, disk.fs, l.home); }
    ghost var staged := disk.history;
    e := MakeParent(disk, l, l.home, from);
    ExtractsEarlier(before, staged, disk.history, l, entries, tar);
    PassageWaits(l, from, staged, disk.history, start, t0, n);
    if e == OK { IsStaged(l, disk.fs, n); }
  }

  /** A publish seen from further back. */
  lemma ArmFromEarlier(l: Layout, from: Fs, mid: Fs, before: seq<Fs>, history: seq<Fs>, start: nat, lo: nat, hi: nat,
                       t0: Tree, n: Tree, e: Errno)
    requires Frame(l, from, mid) && before <= history
    requires Passage(l, from, before, start, |before|, |before|, t0, n)
    requires Arm(l, mid, history, |before|, lo, hi, t0, n, e)
    ensures Arm(l, from, history, start, lo, hi, t0, n, e)
  {
    hide TreeAt, Frame, Slots;
    forall h | Frame(l, mid, h)
      ensures Frame(l, from, h)
    {
      FrameTrans(l, from, mid, h);
    }
    assert forall i | start <= i < |before| :: before[i] == history[i];
  }

  lemma ArmHasFrame(l: Layout, from: Fs, history: seq<Fs>, start: nat, lo: nat, hi: nat, t0: Tree, n: Tree, e: Errno)
    requires Arm(l, from, history, start, lo, hi, t0, n, e)
    ensures history != [] && Frame(l, from, history[|history| - 1]) && Slots(l, history[|history| - 1])
    ensures e == OK ==> TreeAt(history[|history| - 1], l.Final()) == n && TreeAt(history[|history| - 1], l.Staging()) == map[]
  {
    hide TreeAt, Frame, Slots, Passage;
  }

  /** ... and the home is still there. */
  lemma SwappedFromEarlier(l: Layout, from: Fs, mid: Fs, before: seq<Fs>, calls: seq<RenameCall>, history: seq<Fs>,
                           start: nat, lo: nat, hi: nat, t0: Tree, n: Tree, e: Errno, route: Route)
    requires Staged(l, mid, n) && Frame(l, from, mid) && before <= history
    requires Passage(l, from, before, start, |before|, |before|, t0, n)
    requires Swapped(l, mid, calls, history, |before|, lo, hi, t0, n, e, route)
    ensures Swapped(l, from, calls, history, start, lo, hi, t0, n, e, route)
  {
    hide TreeAt, Frame, Slots, Passage, Stageable, DirPath, Arm, Staged, Moment, RouteOf, FirstCall, ByTheCalls,
      Layout.Sound, Layout.Staging, Layout.Final;
    ArmFromEarlier(l, from, mid, before, history, start, lo, hi, t0, n, e);
  }

  lemma HomeAfterSwap(l: Layout, from: Fs, calls: seq<RenameCall>, history: seq<Fs>, start: nat, lo: nat, hi: nat, t0: Tree,
                      n: Tree, e: Errno, route: Route, after: Fs)
    requires Staged(l, from, n) && Swapped(l, from, calls, history, start, lo, hi, t0, n, e, route)
    requires history != [] && after == history[|history| - 1]
    ensures l.home in after && after[l.home].Dir?
  {
    hide TreeAt, Frame, Slots, Passage, Stageable, DirPath, Arm, Staged, Moment, RouteOf, FirstCall, ByTheCalls,
      Layout.Sound, Layout.Staging, Layout.Final;
    StagedSlots(l, from, n);
    ArmHasFrame(l, from, history, start, lo, hi, t0, n, e);
    HomeIsThere(l, from, after);
  }

  /** Publish; the home is still there. */
  method PublishAtHome(disk: Disk, l: Layout, ghost from: Fs, ghost start: nat, ghost t0: Tree, ghost n: Tree)
      returns (e: Errno, ghost lo: nat, ghost hi: nat, ghost route: Route)
    requires disk.Valid() && Staged(l, disk.fs, n) && Frame(l, from, disk.fs) && TreeAt(disk.fs, l.Final()) == t0
    requires Passage(l, from, disk.history, start, |disk.history|, |disk.history|, t0, n)
    modifies disk, disk.journal
    ensures old(disk.journal.calls) <= disk.journal.calls
    ensures disk.Valid() && old(disk.history) <= disk.history
    ensures Swapped(l, from, Since(disk.journal.calls, |old(disk.journal.calls)|), disk.history, start, lo, hi, t0, n, e, route)
    ensures l.home in disk.fs && disk.fs[l.home].Dir?
    ensures disk.faults >= old(disk.faults) && (disk.faults == old(disk.faults) ==> e == OK)
  {
    hide TreeAt, Frame, Slots, Passage, Stageable, DirPath, Arm, Moment, RouteOf, FirstCall, ByTheCalls, Staged, Apart, Swapped, Since,
      Layout.Sound, Layout.Staging, Layout.Final;
    ghost var fs, before, asked := disk.fs, disk.history, |disk.journal.calls|;
    PassageBegins(l, fs, before, t0, n);
    FrameSelf(l, fs);
    e, lo, hi, route := PublishStaged(disk, l, fs, |before|, t0, n);
    HomeAfterSwap(l, fs, Since(disk.journal.calls, asked), disk.history, |before|, lo, hi, t0, n, e, route, disk.fs);
    SwappedFromEarlier(l, from, fs, before, Since(disk.journal.calls, asked), disk.history, start, lo, hi, t0, n, e, route);
  }

  /** Publish, then flush. */
  method PublishAndSettle(disk: Disk, l: Layout, ghost from: Fs, ghost start: nat, ghost t0: Tree, ghost n: Tree)
      returns (e: Errno, ghost lo: nat, ghost hi: nat, ghost route: Route)
    requires disk.Valid() && Staged(l, disk.fs, n) && Frame(l, from, disk.fs) && TreeAt(disk.fs, l.Final()) == t0
    requires Passage(l, from, disk.history, start, |disk.history|, |disk.history|, t0, n)
    modifies disk, disk.journal
    ensures old(disk.journal.calls) <= disk.journal.calls
    ensures disk.Valid() && old(disk.history) <= disk.history
    ensures Swapped(l, from, Since(disk.journal.calls, |old(disk.journal.calls)|), disk.history, start, lo, hi, t0, n, e, route)
    ensures disk.faults >= old(disk.faults) && (disk.faults == old(disk.faults) ==> e == OK)
    ensures e == OK ==> HomeFlushed(disk, l, hi)
  {
    hide TreeAt, Frame, Slots, Passage, Stageable, DirPath, Arm, Moment, RouteOf, FirstCall, ByTheCalls, Staged, Apart, Swapped, Since,
      Layout.Sound, Layout.Staging, Layout.Final;
    ghost var asked := |disk.journal.calls|;
    e, lo, hi, route := PublishAtHome(disk, l, from, start, t0, n);
    if e == OK {
      SwappedEnds(l, from, Since(disk.journal.calls, asked), disk.history, start, lo, hi, t0, n, e, route);
      e := Settle(disk, l);
      SwappedFails(l, from, Since(disk.journal.calls, asked), disk.history, start, lo, hi, t0, n, e, route);
    }
  }

  lemma FrameSelf(l: Layout, fs: Fs)
    ensures Frame(l, fs, fs)
  {}

  /** `extract_and_swap_from_file`. */
  method ExtractAndSwap(disk: Disk, l: Layout, entries: seq<TarEntry>, tar: Tar, ghost from: Fs, ghost start: nat, ghost t0: Tree)
      returns (e: Errno, ghost lo: nat, ghost hi: nat, ghost n: Tree, ghost route: Route)
    requires disk.Valid() && l.Sound() && Slots(l, disk.fs) && Frame(l, from, disk.fs)
    requires Fresh(disk.fs, l.Staging()) && TarWorks(entries, tar, l)
    requires TreeAt(disk.fs, l.Final()) == t0
    requires Passage(l, from, disk.history, start, |disk.history|, |disk.history|, t0, Unpacked(l, entries, tar, disk.fs))
    modifies disk, disk.journal
    ensures old(disk.journal.calls) <= disk.journal.calls
    ensures n == Unpacked(l, entries, tar, old(disk.fs)) && old(disk.history) <= disk.history
    ensures disk.Valid() && Swapped(l, from, Since(disk.journal.calls, |old(disk.journal.calls)|), disk.history, start, lo, hi, t0, n, e, route)
    ensures disk.faults >= old(disk.faults) && (e == OK ==> [] in n && n[[]].Dir? && Good(l, entries, tar, old(disk.fs)))
    ensures disk.faults == old(disk.faults) && OnlyDirs(old(disk.fs), l.home) && Good(l, entries, tar, old(disk.fs)) ==> e == OK
    ensures e == OK || disk.faults == old(disk.faults) ==> Extracts(old(disk.history), disk.history, l, entries, tar)
    ensures e == OK ==> HomeFlushed(disk, l, hi)
  {
    hide TreeAt, Frame, Slots, Passage, DirPath, Arm, TarWorks, Fresh, Good, Unpacked, Extracts, OnlyDirs, Moment, Staged, Apart,
      Swapped, Layout.Sound, Layout.Staging, Layout.Final;
    lo, hi, route := 0, 0, NotReached;
    ghost var before := disk.history;
    e, n := StageForPublish(disk, l, entries, tar, from, start, t0);
    if e != OK {
      lo, hi := |disk.history|, |disk.history|;
      ArmWaits(l, from, disk.history, start, t0, n, e);
      NothingAsked(l, from, disk.journal.calls, disk.history, start, t0, n, e);
      return;
    }
    StagedRoot(l, disk.fs, n);
    ghost var staged := disk.history;
    e, lo, hi, route := PublishAndSettle(disk, l, from, start, t0, n);
    ExtractsEarlier(before, staged, disk.history, l, entries, tar);
  }

  lemma NothingAsked(l: Layout, from: Fs, calls: seq<RenameCall>, history: seq<Fs>, start: nat, t0: Tree, n: Tree, e: Errno)
    requires Arm(l, from, history, start, |history|, |history|, t0, n, e) && e != OK
    ensures Swapped(l, from, Since(calls, |calls|), history, start, |history|, |history|, t0, n, e, NotReached)
  {
    hide Arm;
  }

  lemma SwappedFails(l: Layout, from: Fs, calls: seq<RenameCall>, history: seq<Fs>, start: nat, lo: nat, hi: nat,
                     t0: Tree, n: Tree, e: Errno, route: Route)
    requires Swapped(l, from, calls, history, start, lo, hi, t0, n, OK, route)
    ensures Swapped(l, from, calls, history, start, lo, hi, t0, n, e, route)
  {
    hide Arm, Moment, RouteOf, FirstCall, ByTheCalls;
    ArmFails(l, from, history, start, lo, hi, t0, n, e);
  }

  lemma StagedRoot(l: Layout, fs: Fs, n: Tree)
    requires Staged(l, fs, n)
    ensures [] in n && n[[]].Dir?
  {
    hide TreeAt, Slots, DirPath;
    StageableParts(n);
  }

  /** Replacing the inode at the root of a tree. */
  lemma RootUpdate(fs: Fs, p: Path, i: Inode)
    ensures TreeAt(fs[p := i], p) == TreeAt(fs, p)[[] := i] && Without(fs[p := i], p) == Without(fs, p)
  {
    hide Without;
    UpdateIsLocal(fs, p, i);
    var t, u := TreeAt(fs[p := i], p), TreeAt(fs, p)[[] := i];
    forall r
      ensures r in t <==> r in u
      ensures r in t ==> t[r] == u[r]
    {
      assert p + r == p <==> r == [];
    }
  }

  lemma StagingRootMode(l: Layout, a: Fs, mode: nat)
    requires l.Sound() && Slots(l, a) && DirPath(a, l.stagingRoot)
    ensures var b := a[l.stagingRoot := Dir(mode)];
      && Frame(l, a, b) && Slots(l, b) && DirPath(b, l.stagingRoot)
      && TreeAt(b, l.Final()) == TreeAt(a, l.Final()) && TreeAt(b, l.Staging()) == TreeAt(a, l.Staging())
  {
    hide TreeAt;
    var b := a[l.stagingRoot := Dir(mode)];
    SoundApart(l);
    AncestorsElsewhere(l, l.stagingRoot);
    assert Prefix(l.stagingRoot, |l.stagingRoot|) == l.stagingRoot;
    UpdateElsewhere(a, l.stagingRoot, Dir(mode), l.Final());
    UpdateElsewhere(a, l.stagingRoot, Dir(mode), l.Staging());
  }

  lemma UpdateElsewhere(fs: Fs, p: Path, i: Inode, q: Path)
    requires !(q <= p)
    ensures TreeAt(fs[p := i], q) == TreeAt(fs, q)
  {
    forall r
      ensures q + r != p
    {
      assert q <= q + r;
    }
  }

  /** Making the staging entry, or changing its mode. */
  lemma StagingEntryMode(l: Layout, a: Fs, mode: nat)
    requires l.Sound() && Slots(l, a) && DirPath(a, l.stagingRoot)
    ensures var b := a[l.Staging() := Dir(mode)];
      && LocalTo(a, b, l.Staging()) && DirPath(b, l.Staging()) && DirPath(b, l.stagingRoot)
      && TreeAt(b, l.Staging()) == TreeAt(a, l.Staging())[[] := Dir(mode)]
  {
    hide TreeAt, Without;
    var b := a[l.Staging() := Dir(mode)];
    RootUpdate(a, l.Staging(), Dir(mode));
    forall n | 1 <= n <= |l.Staging()|
      ensures Prefix(l.Staging(), n) in b && b[Prefix(l.Staging(), n)].Dir?
    {
      if n <= |l.stagingRoot| {
        assert Prefix(l.Staging(), n) == Prefix(l.stagingRoot, n);
      } else {
        assert Prefix(l.Staging(), n) == l.Staging();
      }
    }
    assert forall n | 1 <= n <= |l.stagingRoot| :: Prefix(l.stagingRoot, n) == Prefix(l.Staging(), n);
  }

  lemma FinalMode(l: Layout, a: Fs, n: Tree)
    requires l.Sound() && Slots(l, a) && TreeAt(a, l.Final()) == n && [] in n
    ensures var b := a[l.Final() := Dir(PUBLIC_DIR_MODE)];
      && LocalTo(a, b, l.Final()) && TreeAt(b, l.Final()) == Opened(n)
  {
    hide TreeAt, Without;
    RootUpdate(a, l.Final(), Dir(PUBLIC_DIR_MODE));
  }

  /** A state in which the published path still shows `t0`. */
  ghost predicate Waiting(l: Layout, from: Fs, h: Fs, t0: Tree) {
    Frame(l, from, h) && Slots(l, h) && TreeAt(h, l.Final()) == t0
  }

  lemma StagingWaits(l: Layout, from: Fs, a: Fs, b: Fs, t0: Tree)
    requires l.Sound() && Waiting(l, from, a, t0) && LocalTo(a, b, l.Staging())
    ensures Waiting(l, from, b, t0)
  {
    hide TreeAt, Frame, Slots, LocalTo;
    StagingWork(l, a, b);
    FrameTrans(l, from, a, b);
  }

  /** The staging area stays a path of directories while its entry is worked on. */
  lemma StagingRootStays(l: Layout, a: Fs, b: Fs)
    requires l.Sound() && DirPath(a, l.stagingRoot) && LocalTo(a, b, l.Staging())
    ensures DirPath(b, l.stagingRoot)
  {
    hide TreeAt, Without;
    forall n | 1 <= n <= |l.stagingRoot|
      ensures Prefix(l.stagingRoot, n) in b && b[Prefix(l.stagingRoot, n)].Dir?
    {
      var q := Prefix(l.stagingRoot, n);
      assert |q| < |l.Staging()|;
      assert q in Without(a, l.Staging()) && q in Without(b, l.Staging());
    }
  }

  /** The staging area's own inode is not touched by work on its entry. */
  lemma StagingRootSame(l: Layout, a: Fs, b: Fs)
    requires LocalTo(a, b, l.Staging())
    ensures l.stagingRoot in b <==> l.stagingRoot in a
    ensures l.stagingRoot in a ==> b[l.stagingRoot] == a[l.stagingRoot]
  {
    hide TreeAt;
    var r := l.stagingRoot;
    assert !(l.Staging() <= r);
    assert r in Without(a, l.Staging()) <==> r in Without(b, l.Staging());
    assert r in a ==> Without(a, l.Staging())[r] == a[r] && Without(b, l.Staging())[r] == b[r];
  }

  /** Remove whatever an earlier process of the same number left at the staging entry. */
  method ClearStaging(disk: Disk, l: Layout, ghost from: Fs, ghost t0: Tree) returns (e: Errno)
    requires disk.Valid() && l.Sound() && Waiting(l, from, disk.fs, t0) && DirPath(disk.fs, l.stagingRoot)
    requires l.stagingRoot in disk.fs
    modifies disk
    ensures disk.Valid() && old(disk.history) <= disk.history && disk.faults >= old(disk.faults)
    ensures forall i | |old(disk.history)| <= i < |disk.history| :: Waiting(l, from, disk.history[i], t0)
    ensures Waiting(l, from, disk.fs, t0) && DirPath(disk.fs, l.stagingRoot)
    ensures l.stagingRoot in disk.fs && disk.fs[l.stagingRoot] == old(disk.fs)[l.stagingRoot]
    ensures e == OK ==> TreeAt(disk.fs, l.Staging()) == map[]
    ensures disk.faults == old(disk.faults) ==> e == OK
  {
    hide TreeAt, Without, Frame, Slots, LocalTo, RemovalOf, DirPath, IsDirectory, Layout.Sound, Layout.Staging, Layout.Final;
    ghost var fs := disk.fs;
    SlotIsDirectory(l, fs);
    if l.Staging() !in disk.fs {
      return OK;
    }
    e := disk.RemoveDirAll(l.Staging());
    forall h | RemovalOf(fs, h, l.Staging())
      ensures Waiting(l, from, h, t0) && DirPath(h, l.stagingRoot)
      ensures l.stagingRoot in h && h[l.stagingRoot] == fs[l.stagingRoot]
    {
      SlotIsDirOrAbsent(l, fs);
      RemovalIsLocal(fs, h, l.Staging());
      StagingRootSame(l, fs, h);
      StagingWaits(l, from, fs, h, t0);
      StagingRootStays(l, fs, h);
    }
    RemoveEffect(l, fs, l.Staging());
  }

  /** Make the empty, private staging entry. */
  method MakeStaging(disk: Disk, l: Layout, ghost from: Fs, ghost t0: Tree) returns (e: Errno)
    requires disk.Valid() && l.Sound() && Waiting(l, from, disk.fs, t0) && DirPath(disk.fs, l.stagingRoot)
    requires l.stagingRoot in disk.fs
    requires TreeAt(disk.fs, l.Staging()) == map[]
    modifies disk
    ensures disk.Valid() && old(disk.history) <= disk.history && disk.faults >= old(disk.faults)
    ensures forall i | |old(disk.history)| <= i < |disk.history| :: Waiting(l, from, disk.history[i], t0)
    ensures Waiting(l, from, disk.fs, t0)
    ensures l.stagingRoot in disk.fs && disk.fs[l.stagingRoot] == old(disk.fs)[l.stagingRoot]
    ensures e == OK ==> DirPath(disk.fs, l.Staging()) && TreeAt(disk.fs, l.Staging()) == EMPTY_DIR
    ensures disk.faults == old(disk.faults) ==> e == OK
  {
    hide TreeAt, Without, Frame, Slots, LocalTo, DirPath;
    ghost var fs := disk.fs;
    RootOf(fs, l.Staging());
    assert l.Staging()[..|l.Staging()| - 1] == l.stagingRoot;
    StagingEntryMode(l, fs, NEW_DIR_MODE);
    e := disk.CreateDir(l.Staging());
    if e != OK {
      return;
    }
    ghost var made := disk.fs;
    StagingWaits(l, from, fs, made, t0);
    StagingEntryMode(l, made, PRIVATE_DIR_MODE);
    StagingWaits(l, from, made, made[l.Staging() := Dir(PRIVATE_DIR_MODE)], t0);
    e := disk.SetDirMode(l.Staging(), PRIVATE_DIR_MODE);
  }

  /** Everything before extraction: the staging area, and an empty private entry in it. */
  method PrepareStaging(disk: Disk, l: Layout) returns (e: Errno)
    requires disk.Valid() && l.Sound() && World(l, disk.fs)
    modifies disk
    ensures disk.Valid() && old(disk.history) <= disk.history && disk.faults >= old(disk.faults)
    ensures var fs, t0 := old(disk.fs), TreeAt(old(disk.fs), l.Final());
      && (forall i | |old(disk.history)| <= i < |disk.history| :: Waiting(l, fs, disk.history[i], t0))
      && Waiting(l, fs, disk.fs, t0)
    ensures e == OK ==> DirPath(disk.fs, l.Staging()) && TreeAt(disk.fs, l.Staging()) == EMPTY_DIR
    // Both are for the installing user only: 0o700.
    ensures e == OK ==> l.stagingRoot in disk.fs && disk.fs[l.stagingRoot] == Dir(0x1C0)
    ensures e == OK ==> l.Staging() in disk.fs && disk.fs[l.Staging()] == Dir(0x1C0)
    ensures disk.faults == old(disk.faults) ==> e == OK
  {
    hide TreeAt, Frame, Slots, DirPath, OnlyDirs, Layout.Sound, Layout.Staging, Layout.Final;
    ghost var fs, t0 := disk.fs, TreeAt(disk.fs, l.Final());
    FrameSelf(l, fs);
    e := MakeParent(disk, l, l.stagingRoot, fs);
    if e != OK {
      return;
    }
    ghost var made := disk.fs;
    StagingRootMode(l, made, PRIVATE_DIR_MODE);
    FrameTrans(l, fs, made, made[l.stagingRoot := Dir(PRIVATE_DIR_MODE)]);
    StagingRootIsThere(l, made);
    e := disk.SetDirMode(l.stagingRoot, PRIVATE_DIR_MODE);
    if e != OK {
      return;
    }
    e := ClearStaging(disk, l, fs, t0);
    if e == OK {
      e := MakeStaging(disk, l, fs, t0);
      RootOf(disk.fs, l.Staging());
    }
  }

  lemma StagingRootIsThere(l: Layout, fs: Fs)
    requires l.Sound() && DirPath(fs, l.stagingRoot)
    ensures l.stagingRoot in fs && fs[l.stagingRoot].Dir?
  {
    assert Prefix(l.stagingRoot, |l.stagingRoot|) == l.stagingRoot;
  }

  /** The published path over a whole install: `t0` up to `lo`, from `hi` on the new tree, before or after
      it is opened up, in between what is left of the old tree and then a beginning of the new one;
      nothing else on the disk is disturbed. */
  ghost predicate Course(l: Layout, from: Fs, history: seq<Fs>, start: nat, lo: nat, hi: nat, t0: Tree, n: Tree) {
    && start <= lo <= hi <= |history|
    && (forall i | start <= i < |history| :: Frame(l, from, history[i]) && Slots(l, history[i]))
    && (forall i | start <= i < lo :: TreeAt(history[i], l.Final()) == t0)
    && (forall i | hi <= i < |history| :: TreeAt(history[i], l.Final()) == n || TreeAt(history[i], l.Final()) == Opened(n))
    && Changeover(l, history, lo, hi, t0, n)
  }

  /** When the course turns: with the first rename call, and in one state on the atomic routes; never if
      publishing was not reached or its call failed. */
  ghost predicate Turns(l: Layout, calls: seq<RenameCall>, history: seq<Fs>, lo: nat, hi: nat, t0: Tree, route: Route) {
    && FirstCall(calls, t0) && route == RouteOf(calls, t0)
    && lo <= hi <= |history| && ByTheCalls(l, calls, history, lo, hi, t0)
    && (if route.NotReached? || route.Untouched? then lo == hi == |history|
        else lo == calls[0].at && (route.FreshRename? || route.Exchange? ==> lo == hi < |history|))
  }

  lemma CourseFromArm(l: Layout, from: Fs, calls: seq<RenameCall>, history: seq<Fs>, start: nat, lo: nat, hi: nat, t0: Tree,
                      n: Tree, e: Errno, route: Route)
    requires Swapped(l, from, calls, history, start, lo, hi, t0, n, e, route)
    ensures Course(l, from, history, start, lo, hi, t0, n) && Turns(l, calls, history, lo, hi, t0, route)
  {
    hide Arm, Moment, RouteOf, FirstCall, ByTheCalls, Course, Turns;
    assert Arm(l, from, history, start, lo, hi, t0, n, e);
    PassageIsCourse(l, from, history, start, lo, hi, t0, n, e);
    MomentTurns(l, calls, history, lo, hi, t0, route);
  }

  lemma PassageIsCourse(l: Layout, from: Fs, history: seq<Fs>, start: nat, lo: nat, hi: nat, t0: Tree, n: Tree, e: Errno)
    requires Arm(l, from, history, start, lo, hi, t0, n, e)
    ensures Course(l, from, history, start, lo, hi, t0, n)
  {
    hide TreeAt, Frame, Slots, Opened, Changeover;
  }

  lemma MomentTurns(l: Layout, calls: seq<RenameCall>, history: seq<Fs>, lo: nat, hi: nat, t0: Tree, route: Route)
    requires FirstCall(calls, t0) && route == RouteOf(calls, t0)
    requires if calls == [] then lo == hi == |history| else Moment(route, lo, hi, calls[0].at, |history|)
    requires lo <= hi <= |history| && ByTheCalls(l, calls, history, lo, hi, t0)
    ensures Turns(l, calls, history, lo, hi, t0, route)
  {
    hide ByTheCalls;
  }

  lemma CourseOpens(l: Layout, from: Fs, calls: seq<RenameCall>, history: seq<Fs>, start: nat, lo: nat, hi: nat, t0: Tree,
                    n: Tree, route: Route, next: Fs)
    requires Course(l, from, history, start, lo, hi, t0, n) && Turns(l, calls, history, lo, hi, t0, route) && hi < |history|
    requires Frame(l, from, next) && Slots(l, next) && TreeAt(next, l.Final()) == Opened(n)
    ensures Course(l, from, history + [next], start, lo, hi, t0, n) && Turns(l, calls, history + [next], lo, hi, t0, route)
  {
    hide TreeAt, Frame, Slots, Opened, RouteOf, FirstCall, Changeover, ByTheCalls;
    ChangeoverExtends(l, history, history + [next], lo, hi, t0, n);
    CallsExtend(l, calls, history, history + [next], lo, hi, t0);
  }

  /** Cleaning up the staging entry keeps the course: nothing changes at the published path. */
  lemma CourseAfterCleanup(l: Layout, from: Fs, calls: seq<RenameCall>, history: seq<Fs>, more: seq<Fs>, start: nat, lo: nat,
                           hi: nat, t0: Tree, n: Tree, route: Route) returns (lo': nat, hi': nat)
    requires Course(l, from, history, start, lo, hi, t0, n) && Turns(l, calls, history, lo, hi, t0, route)
    requires history <= more && history != []
    requires forall i | |history| <= i < |more| ::
      Frame(l, from, more[i]) && Slots(l, more[i])
      && TreeAt(more[i], l.Final()) == TreeAt(history[|history| - 1], l.Final())
    requires lo == |history| && start == |history| ==> TreeAt(history[|history| - 1], l.Final()) == t0
    ensures Course(l, from, more, start, lo', hi', t0, n) && Turns(l, calls, more, lo', hi', t0, route)
  {
    hide TreeAt, Frame, Slots, Opened, RouteOf, FirstCall, Changeover, ByTheCalls;
    lo', hi' := lo, hi;
    if hi == |history| {
      hi' := |more|;
      if route.NotReached? || route.Untouched? {
        lo' := |more|;
        NoChangeover(l, more, t0, n);
        CallsWait(l, calls, history, more, t0, route);
      } else {
        ChangeoverStays(l, history, more, lo, t0, n);
        CallsStay(l, calls, history, more, lo, t0, route);
      }
    } else {
      ChangeoverExtends(l, history, more, lo, hi, t0, n);
      CallsExtend(l, calls, history, more, lo, hi, t0);
    }
  }

  /** States after the new tree has arrived. */
  lemma CallsExtend(l: Layout, calls: seq<RenameCall>, history: seq<Fs>, more: seq<Fs>, lo: nat, hi: nat, t0: Tree)
    requires history <= more && lo <= hi < |history| && ByTheCalls(l, calls, history, lo, hi, t0)
    ensures ByTheCalls(l, calls, more, lo, hi, t0)
  {
    hide TreeAt, PartOf;
  }

  /** Nothing has changed, and nothing changes. */
  lemma CallsWait(l: Layout, calls: seq<RenameCall>, history: seq<Fs>, more: seq<Fs>, t0: Tree, route: Route)
    requires history <= more && ByTheCalls(l, calls, history, |history|, |history|, t0)
    requires FirstCall(calls, t0) && route == RouteOf(calls, t0) && (route.NotReached? || route.Untouched?)
    ensures ByTheCalls(l, calls, more, |more|, |more|, t0)
  {
    hide TreeAt, Renamed;
  }

  /** The path goes on showing what it last showed, while the new tree has not arrived. */
  lemma CallsStay(l: Layout, calls: seq<RenameCall>, history: seq<Fs>, more: seq<Fs>, lo: nat, t0: Tree, route: Route)
    requires history <= more && history != [] && lo <= |history| && ByTheCalls(l, calls, history, lo, |history|, t0)
    requires FirstCall(calls, t0) && route == RouteOf(calls, t0) && !route.NotReached? && !route.Untouched?
    requires var t := TreeAt(history[|history| - 1], l.Final());
      && (forall i | |history| <= i < |more| :: TreeAt(more[i], l.Final()) == t)
      && (lo == |history| ==> t == t0)
    ensures ByTheCalls(l, calls, more, lo, |more|, t0)
  {
    hide TreeAt, PartOf, Renamed;
    if calls != [] && calls[0].exchange && calls[0].answer in {EINVAL, ENOSYS} {
      RenamedStays(l, calls[1..], history, more, lo, t0);
    }
  }

  lemma RenamedStays(l: Layout, calls: seq<RenameCall>, history: seq<Fs>, more: seq<Fs>, lo: nat, t0: Tree)
    requires history <= more && history != [] && lo <= |history| && Renamed(l, calls, history, lo, |history|, t0)
    requires var t := TreeAt(history[|history| - 1], l.Final());
      && (forall i | |history| <= i < |more| :: TreeAt(more[i], l.Final()) == t)
      && (lo == |history| ==> t == t0)
    ensures Renamed(l, calls, more, lo, |more|, t0)
  {
    hide TreeAt, PartOf;
    OldIsPartOfItself(t0);
    if calls != [] { OldOnlyThen(l, history[..calls[0].at], more, lo, t0); }
  }

  lemma NoChangeover(l: Layout, history: seq<Fs>, t0: Tree, n: Tree)
    ensures Changeover(l, history, |history|, |history|, t0, n)
  {}

  lemma ChangeoverExtends(l: Layout, history: seq<Fs>, more: seq<Fs>, lo: nat, hi: nat, t0: Tree, n: Tree)
    requires history <= more && lo <= hi <= |history| && Changeover(l, history, lo, hi, t0, n)
    ensures Changeover(l, more, lo, hi, t0, n)
  {
    hide TreeAt, PartOf, Beginning;
  }

  /** The path goes on showing what it last showed. */
  lemma ChangeoverStays(l: Layout, history: seq<Fs>, more: seq<Fs>, lo: nat, t0: Tree, n: Tree)
    requires history <= more && history != [] && lo <= |history| && Changeover(l, history, lo, |history|, t0, n)
    requires var t := TreeAt(history[|history| - 1], l.Final());
      && (forall i | |history| <= i < |more| :: TreeAt(more[i], l.Final()) == t)
      && (lo == |history| ==> t == t0)
    ensures Changeover(l, more, lo, |more|, t0, n)
  {
    hide TreeAt, PartOf, Beginning;
    OldIsPartOfItself(t0);
    var t := TreeAt(history[|history| - 1], l.Final());
    assert PartOf(t, t0) || Beginning(t, n);
    forall i | lo <= i < |more|
      ensures PartOf(TreeAt(more[i], l.Final()), t0) || (Beginning(TreeAt(more[i], l.Final()), n) && Beginning(t, n))
    {
      if i < |history| - 1 {
        assert PartOf(TreeAt(history[i], l.Final()), t0) || Beginning(t, n);
      } else {
        assert TreeAt(more[i], l.Final()) == t;
      }
    }
  }

  lemma OldIsPartOfItself(t: Tree)
    ensures PartOf(t, t)
  {}

  /** Best-effort removal of the staging entry after a failure. */
  method CleanUp(disk: Disk, l: Layout, ghost from: Fs)
    requires disk.Valid() && l.Sound() && Frame(l, from, disk.fs) && Slots(l, disk.fs)
    modifies disk
    ensures disk.Valid() && old(disk.history) <= disk.history && disk.faults >= old(disk.faults)
    ensures forall i | |old(disk.history)| <= i < |disk.history| ::
      && Frame(l, from, disk.history[i]) && Slots(l, disk.history[i])
      && TreeAt(disk.history[i], l.Final()) == TreeAt(old(disk.fs), l.Final())
    ensures disk.faults == old(disk.faults) ==> TreeAt(disk.fs, l.Staging()) == map[]
  {
    hide TreeAt, Without, Frame, Slots, LocalTo, RemovalOf, IsDirectory, Layout.Sound, Layout.Staging, Layout.Final;
    ghost var fs := disk.fs;
    SlotIsDirectory(l, fs);
    var ignored := disk.RemoveDirAll(l.Staging());
    forall h | RemovalOf(fs, h, l.Staging())
      ensures Frame(l, from, h) && Slots(l, h) && TreeAt(h, l.Final()) == TreeAt(fs, l.Final())
    {
      SlotIsDirOrAbsent(l, fs);
      RemovalIsLocal(fs, h, l.Staging());
      StagingWork(l, fs, h);
      FrameTrans(l, from, fs, h);
    }
    RemoveEffect(l, fs, l.Staging());
  }

  /** A whole run of the install: its course, when it turned, and what success means. */
  ghost predicate Ran(l: Layout, from: Fs, calls: seq<RenameCall>, history: seq<Fs>, start: nat, lo: nat, hi: nat, n: Tree,
                      e: Errno, route: Route) {
    var t0 := TreeAt(from, l.Final());
    && history != []
    && Course(l, from, history, start, lo, hi, t0, n) && Turns(l, calls, history, lo, hi, t0, route)
    && (e == OK ==>
          && hi < |history|
          && TreeAt(history[|history| - 1], l.Final()) == Opened(n)
          && TreeAt(history[|history| - 1], l.Staging()) == map[])
  }

  lemma RanNowhere(l: Layout, from: Fs, history: seq<Fs>, start: nat, n: Tree, e: Errno)
    requires history != [] && start <= |history| && e != OK
    requires forall i | start <= i < |history| :: Waiting(l, from, history[i], TreeAt(from, l.Final()))
    ensures Ran(l, from, [], history, start, |history|, |history|, n, e, NotReached)
  {
    hide TreeAt, Frame, Slots, Opened;
  }

  /** Extract and publish into a prepared staging entry. */
  method InstallPrepared(disk: Disk, l: Layout, entries: seq<TarEntry>, tar: Tar, ghost from: Fs, ghost start: nat)
      returns (e: Errno, ghost lo: nat, ghost hi: nat, ghost n: Tree, ghost route: Route)
    requires disk.Valid() && l.Sound() && TarWorks(entries, tar, l) && start <= |disk.history|
    requires Waiting(l, from, disk.fs, TreeAt(from, l.Final()))
    requires forall i | start <= i < |disk.history| :: Waiting(l, from, disk.history[i], TreeAt(from, l.Final()))
    requires Fresh(disk.fs, l.Staging())
    modifies disk, disk.journal
    ensures old(disk.journal.calls) <= disk.journal.calls
    ensures disk.Valid() && old(disk.history) <= disk.history && n == Unpacked(l, entries, tar, old(disk.fs))
    ensures Swapped(l, from, Since(disk.journal.calls, |old(disk.journal.calls)|), disk.history, start, lo, hi, TreeAt(from, l.Final()), n, e, route)
    ensures disk.faults >= old(disk.faults) && (e == OK ==> [] in n && n[[]].Dir? && Good(l, entries, tar, old(disk.fs)))
    ensures disk.faults == old(disk.faults) && OnlyDirs(from, l.home) && Good(l, entries, tar, old(disk.fs)) ==> e == OK
    ensures e == OK || disk.faults == old(disk.faults) ==> Extracts(old(disk.history), disk.history, l, entries, tar)
    ensures e == OK ==> HomeFlushed(disk, l, hi)
  {
    hide TreeAt, Frame, Slots, Passage, Fresh, TarWorks, Good, Unpacked, Extracts, OnlyDirs,
      Swapped, Layout.Sound, Layout.Staging, Layout.Final;
    ghost var t0 := TreeAt(from, l.Final());
    PassageWaited(l, from, disk.history, start, t0, Unpacked(l, entries, tar, disk.fs));
    if OnlyDirs(from, l.home) { PathStays(l, from, disk.fs, l.home); }
    e, lo, hi, n, route := ExtractAndSwap(disk, l, entries, tar, from, start, t0);
  }

  lemma PassageWaited(l: Layout, from: Fs, history: seq<Fs>, start: nat, t0: Tree, n: Tree)
    requires start <= |history| && forall i | start <= i < |history| :: Waiting(l, from, history[i], t0)
    ensures Passage(l, from, history, start, |history|, |history|, t0, n)
  {
    hide TreeAt, Frame, Slots;
  }

  lemma SomeState(before: seq<Fs>, history: seq<Fs>, fs: Fs)
    requires before != [] && before <= history && before[|before| - 1] == fs
    ensures |before| < |history| || history[|history| - 1] == fs
  {}

  lemma WorldHome(l: Layout, fs: Fs)
    requires World(l, fs)
    ensures OnlyDirs(fs, l.home)
  {
    hide TreeAt, OnlyDirs;
  }

  /** The disk at one moment. */
  function At(history: seq<Fs>, moment: nat): Fs {
    if moment < |history| then history[moment] else map[]
  }

  /** Extraction began at moment `base`, in an empty staging entry; `n` is the tree it makes. */
  ghost predicate Began(l: Layout, entries: seq<TarEntry>, tar: Tar, history: seq<Fs>, start: nat, base: nat, n: Tree) {
    && start <= base + 1 <= |history| && Fresh(At(history, base), l.Staging()) && n == Unpacked(l, entries, tar, At(history, base))
    && Extracts(history[..base + 1], history, l, entries, tar)
  }

  lemma BeganAt(l: Layout, entries: seq<TarEntry>, tar: Tar, before: seq<Fs>, history: seq<Fs>, start: nat, n: Tree)
    requires start <= |before| && before != [] && before <= history && Fresh(before[|before| - 1], l.Staging())
    requires n == Unpacked(l, entries, tar, before[|before| - 1]) && Extracts(before, history, l, entries, tar)
    ensures Began(l, entries, tar, history, start, |before| - 1, n)
  {
    hide Fresh, Unpacked, Extracts;
    assert history[..|before| - 1 + 1] == before;
  }

  lemma BeganEarlier(l: Layout, entries: seq<TarEntry>, tar: Tar, history: seq<Fs>, more: seq<Fs>, start: nat, base: nat, n: Tree)
    requires Began(l, entries, tar, history, start, base, n) && history <= more
    ensures Began(l, entries, tar, more, start, base, n) && At(more, base) == At(history, base)
  {
    hide Fresh, Unpacked, Extracts;
    assert history[..base + 1] == more[..base + 1];
    ExtractsEarlier(history[..base + 1], history, more, l, entries, tar);
  }

  lemma BeganTree(l: Layout, entries: seq<TarEntry>, tar: Tar, history: seq<Fs>, start: nat, base: nat, n: Tree)
    requires Began(l, entries, tar, history, start, base, n)
    ensures n == Unpacked(l, entries, tar, At(history, base))
  {
    hide Unpacked, Fresh, Extracts;
  }

  /** `install_runner_binary`, from any state an install can start from. */
  method InstallRunnerBinary(disk: Disk, l: Layout, entries: seq<TarEntry>, tar: Tar)
      returns (e: Errno, ghost lo: nat, ghost hi: nat, ghost n: Tree, ghost route: Route, ghost base: nat)
    requires disk.Valid() && l.Sound() && World(l, disk.fs) && TarWorks(entries, tar, l)
    modifies disk, disk.journal
    ensures old(disk.journal.calls) <= disk.journal.calls
    ensures disk.Valid() && old(disk.history) <= disk.history && disk.faults >= old(disk.faults)
    ensures Ran(l, old(disk.fs), Since(disk.journal.calls, |old(disk.journal.calls)|), disk.history, |old(disk.history)|, lo, hi, n, e, route)
    ensures e == OK || disk.faults == old(disk.faults) ==> Began(l, entries, tar, disk.history, |old(disk.history)|, base, n)
    ensures e == OK ==> Good(l, entries, tar, At(disk.history, base))
    // Open to the runner's user: 0o755.
    ensures e == OK ==> l.Final() in disk.fs && disk.fs[l.Final()] == Dir(0x1ED)
    ensures e == OK ==> HomeFlushed(disk, l, hi)
    ensures disk.faults == old(disk.faults) && Good(l, entries, tar, At(disk.history, base)) ==> e == OK
    // Whatever the tarball, nothing is left in the staging area.
    ensures disk.faults == old(disk.faults) ==> TreeAt(disk.fs, l.Staging()) == map[]
  {
    hide TreeAt, Frame, Slots, Fresh, DirPath, TarWorks, Good, Unpacked, Extracts, Began, OnlyDirs, Course, Turns, World, Ran, Waiting,
      Layout.Sound, Layout.Staging, Layout.Final, Swapped;
    ghost var fs, before, start, asked := disk.fs, disk.history, |disk.history|, |disk.journal.calls|;
    WorldHome(l, fs);
    n, base := map[], 0;
    e := PrepareStaging(disk, l);
    lo, hi, route := |disk.history|, |disk.history|, NotReached;
    if e != OK {
      RanNowhere(l, fs, disk.history, start, n, e);
      assert Since(disk.journal.calls, |disk.journal.calls|) == [];
      return;
    }
    IsFresh(disk.fs, l.Staging());
    ghost var prepared := disk.history;
    base := |prepared| - 1;
    e, lo, hi, n, route := InstallPrepared(disk, l, entries, tar, fs, start);
    SomeState(before, disk.history, fs);
    ghost var published, began := disk.history, e == OK || disk.faults == old(disk.faults);
    if began { BeganAt(l, entries, tar, prepared, published, start, n); }
    if e == OK {
      e := ConcludePublished(disk, l, fs, Since(disk.journal.calls, asked), start, lo, hi, n, route);
    } else {
      lo, hi := ConcludeFailed(disk, l, fs, Since(disk.journal.calls, asked), start, lo, hi, n, e, route);
    }
    if began { BeganEarlier(l, entries, tar, published, disk.history, start, base, n); }
  }

  lemma IsFresh(fs: Fs, dest: Path)
    requires DirPath(fs, dest) && TreeAt(fs, dest) == EMPTY_DIR
    ensures Fresh(fs, dest)
  {
    hide TreeAt, DirPath;
  }

  /** For a tarball the crate unpacks alike everywhere, whether it is good and what tree it makes depends on
      it alone. */
  lemma PortableInstall(l: Layout, entries: seq<TarEntry>, tar: Tar, history: seq<Fs>, start: nat, base: nat, n: Tree)
    requires Portable(entries, tar, l.Staging()) && Began(l, entries, tar, history, start, base, n)
    ensures Good(l, entries, tar, At(history, base)) <==> GoodTarball(entries, tar, EMPTY_DIR, [], [])
    ensures Good(l, entries, tar, At(history, base)) ==> n == TarTree(entries, tar, EMPTY_DIR, [])
  {
    hide Fresh, Extracts, Portable, GoodTarball, TarTree, Layout.Staging;
    TarTreeAnywhere(entries, tar, At(history, base), l.Staging());
  }

  /** What the swap leaves, to start the last step from. */
  lemma SwappedEnds(l: Layout, from: Fs, calls: seq<RenameCall>, history: seq<Fs>, start: nat, lo: nat, hi: nat, t0: Tree,
                    n: Tree, e: Errno, route: Route)
    requires Swapped(l, from, calls, history, start, lo, hi, t0, n, e, route)
    ensures history != [] && Frame(l, from, history[|history| - 1]) && Slots(l, history[|history| - 1])
    ensures Course(l, from, history, start, lo, hi, t0, n) && Turns(l, calls, history, lo, hi, t0, route)
    ensures e == OK ==>
      && hi < |history| && TreeAt(history[|history| - 1], l.Final()) == n
      && TreeAt(history[|history| - 1], l.Staging()) == map[]
  {
    hide TreeAt, Frame, Slots, Course, Turns, Passage, Moment, RouteOf, FirstCall, ByTheCalls;
    CourseFromArm(l, from, calls, history, start, lo, hi, t0, n, e, route);
  }

  lemma RanFromCourse(l: Layout, from: Fs, calls: seq<RenameCall>, history: seq<Fs>, start: nat, lo: nat, hi: nat, n: Tree,
                      e: Errno, route: Route)
    requires history != [] && Course(l, from, history, start, lo, hi, TreeAt(from, l.Final()), n)
    requires Turns(l, calls, history, lo, hi, TreeAt(from, l.Final()), route)
    requires e == OK ==>
      && hi < |history|
      && TreeAt(history[|history| - 1], l.Final()) == Opened(n) && TreeAt(history[|history| - 1], l.Staging()) == map[]
    ensures Ran(l, from, calls, history, start, lo, hi, n, e, route)
  {
    hide TreeAt, Course, Turns, Opened;
  }

  /** After a failure: clean up. */
  method ConcludeFailed(disk: Disk, l: Layout, ghost from: Fs, ghost calls: seq<RenameCall>, ghost start: nat, ghost lo: nat,
                        ghost hi: nat, ghost n: Tree, e: Errno, ghost route: Route) returns (ghost lo': nat, ghost hi': nat)
    requires disk.Valid() && l.Sound() && e != OK && (start < |disk.history| || disk.fs == from)
    requires Swapped(l, from, calls, disk.history, start, lo, hi, TreeAt(from, l.Final()), n, e, route)
    modifies disk
    ensures disk.Valid() && old(disk.history) <= disk.history && disk.faults >= old(disk.faults)
    ensures Ran(l, from, calls, disk.history, start, lo', hi', n, e, route)
    ensures disk.faults == old(disk.faults) ==> TreeAt(disk.fs, l.Staging()) == map[]
  {
    hide TreeAt, Frame, Slots, Course, Turns, Swapped, Ran, Layout.Sound, Layout.Staging, Layout.Final;
    ghost var before, t0 := disk.history, TreeAt(from, l.Final());
    SwappedEnds(l, from, calls, before, start, lo, hi, t0, n, e, route);
    CourseStarts(l, from, before, start, lo, hi, t0, n);
    CleanUp(disk, l, from);
    lo', hi' := CourseAfterCleanup(l, from, calls, before, disk.history, start, lo, hi, t0, n, route);
    RanFromCourse(l, from, calls, disk.history, start, lo', hi', n, e, route);
  }

  lemma CourseStarts(l: Layout, from: Fs, history: seq<Fs>, start: nat, lo: nat, hi: nat, t0: Tree, n: Tree)
    requires Course(l, from, history, start, lo, hi, t0, n)
    ensures start <= lo <= hi <= |history|
  {
    hide TreeAt, Frame, Slots, Changeover;
  }

  lemma OpenedEffect(l: Layout, from: Fs, fs: Fs, n: Tree)
    requires l.Sound() && Frame(l, from, fs) && Slots(l, fs) && TreeAt(fs, l.Final()) == n && [] in n
    ensures var after := fs[l.Final() := Dir(PUBLIC_DIR_MODE)];
      && Frame(l, from, after) && Slots(l, after) && TreeAt(after, l.Final()) == Opened(n)
      && TreeAt(after, l.Staging()) == TreeAt(fs, l.Staging())
    ensures l.Final() in fs && (n[[]].Dir? ==> fs[l.Final()].Dir?)
  {
    hide TreeAt, Frame, Slots, Opened, Layout.Staging, Layout.Final;
    FinalMode(l, fs, n);
    FinalWork(l, fs, fs[l.Final() := Dir(PUBLIC_DIR_MODE)]);
    FrameTrans(l, from, fs, fs[l.Final() := Dir(PUBLIC_DIR_MODE)]);
    RootOf(fs, l.Final());
  }

  /** After publishing: open the tree up. */
  method ConcludePublished(disk: Disk, l: Layout, ghost from: Fs, ghost calls: seq<RenameCall>, ghost start: nat,
                           ghost lo: nat, ghost hi: nat, ghost n: Tree, ghost route: Route) returns (e: Errno)
    requires disk.Valid() && l.Sound() && [] in n && n[[]].Dir?
    requires Swapped(l, from, calls, disk.history, start, lo, hi, TreeAt(from, l.Final()), n, OK, route)
    modifies disk
    ensures disk.Valid() && old(disk.history) <= disk.history && disk.faults >= old(disk.faults)
    ensures Ran(l, from, calls, disk.history, start, lo, hi, n, e, route)
    ensures disk.faults == old(disk.faults) ==> e == OK
    ensures e == OK ==> l.Final() in disk.fs && disk.fs[l.Final()] == Dir(0x1ED)
    ensures TreeAt(disk.fs, l.Staging()) == map[] && disk.flushed == old(disk.flushed)
  {
    hide TreeAt, Frame, Slots, Course, Turns, Swapped, Ran, Opened, Layout.Sound, Layout.Staging, Layout.Final;
    ghost var fs, before, t0 := disk.fs, disk.history, TreeAt(from, l.Final());
    SwappedEnds(l, from, calls, before, start, lo, hi, t0, n, OK, route);
    OpenedEffect(l, from, fs, n);
    e := disk.SetDirMode(l.Final(), PUBLIC_DIR_MODE);
    if e == OK {
      CourseOpens(l, from, calls, before, start, lo, hi, t0, n, route, disk.fs);
    }
    RanFromCourse(l, from, calls, disk.history, start, lo, hi, n, e, route);
  }

  /** Another process's staging entry is as foreign as anything else. */
  lemma OtherEntryStays(l: Layout, entry: Name, a: Fs, b: Fs)
    requires l.Sound() && entry != l.entry && Frame(l, a, b)
    ensures TreeAt(b, l.(entry := entry).Staging()) == TreeAt(a, l.(entry := entry).Staging())
  {
    var p := l.(entry := entry).Staging();
    forall r
      ensures p + r in a <==> p + r in b
      ensures p + r in a ==> a[p + r] == b[p + r]
    {
      EntryIsForeign(l, entry, r);
    }
  }

  lemma EntryIsForeign(l: Layout, entry: Name, r: Path)
    requires l.Sound() && entry != l.entry
    ensures var q := l.(entry := entry).Staging() + r;
      Foreign(l, q) && !(q <= l.home) && !(q <= l.stagingRoot)
  {
    var p, q := l.(entry := entry).Staging(), l.(entry := entry).Staging() + r;
    assert q[|l.stagingRoot|] == entry && l.Staging()[|l.stagingRoot|] == l.entry;
    assert p <= q && l.stagingRoot <= q && l.home <= l.Final();
    PrefixesNest(l.Final(), l.stagingRoot, q);
    PrefixesNest(l.stagingRoot, l.Final(), q);
    PrefixTrans(l.stagingRoot, q, l.home);
    PrefixTrans(l.stagingRoot, l.home, l.Final());
  }

  /** Every state an install leaves is one the next install, of any process, can start from. */
  lemma CrashStatesAreInstallable(l: Layout, entry: Name, a: Fs, b: Fs)
    requires l.Sound() && World(l, a) && World(l.(entry := entry), a) && Frame(l, a, b) && Slots(l, b)
    ensures World(l.(entry := entry), b) && Slots(l.(entry := entry), b)
    ensures l.(entry := entry).Sound() && l.(entry := entry).Final() == l.Final()
  {
    hide TreeAt, Frame, OnlyDirs;
    WorldStays(l, a, b);
    if entry != l.entry {
      OtherEntryStays(l, entry, a, b);
    } else {
      assert l.(entry := entry) == l;
    }
  }

  /** What two installs one after the other do to the rest of the disk. */
  lemma FrameOfBoth(l: Layout, entry: Name, a: Fs, b: Fs, c: Fs, q: Path)
    requires Frame(l, a, b) && Frame(l.(entry := entry), b, c)
    requires Foreign(l, q) && Foreign(l.(entry := entry), q)
    ensures q in a ==> q in c && c[q] == a[q]
    ensures q in c && q !in a ==> (q <= l.home || q <= l.stagingRoot) && c[q] == Dir(NEW_DIR_MODE)
  {}

  /** Nothing but what an install works on has changed, in any state. */
  ghost predicate Undisturbed(l: Layout, from: Fs, history: seq<Fs>, start: nat) {
    forall i | start <= i < |history| :: Frame(l, from, history[i]) && Slots(l, history[i])
  }

  lemma EndOfRun(l: Layout, from: Fs, calls: seq<RenameCall>, history: seq<Fs>, start: nat, lo: nat, hi: nat, n: Tree,
                 e: Errno, route: Route)
    requires 0 < start <= |history| && history[start - 1] == from && Slots(l, from)
    requires Ran(l, from, calls, history, start, lo, hi, n, e, route)
    ensures Undisturbed(l, from, history, start - 1)
    ensures e == OK ==>
      && TreeAt(history[|history| - 1], l.Final()) == Opened(n)
      && TreeAt(history[|history| - 1], l.Staging()) == map[]
  {
    hide TreeAt, Slots, Turns, Frame, Opened, Course, Layout.Staging, Layout.Final;
    FrameSelf(l, from);
    CourseFrames(l, from, history, start, lo, hi, TreeAt(from, l.Final()), n);
    forall i | start - 1 <= i < |history|
      ensures Frame(l, from, history[i]) && Slots(l, history[i])
    {
      assert i == start - 1 || start <= i;
    }
  }

  lemma CourseFrames(l: Layout, from: Fs, history: seq<Fs>, start: nat, lo: nat, hi: nat, t0: Tree, n: Tree)
    requires Course(l, from, history, start, lo, hi, t0, n)
    ensures start <= |history| && forall i | start <= i < |history| :: Frame(l, from, history[i]) && Slots(l, history[i])
  {
    hide TreeAt, Slots, Frame, Changeover;
  }

  /** The history from `start` on is that of an install of this tarball, with these rename calls. */
  ghost predicate HasRun(l: Layout, from: Fs, entries: seq<TarEntry>, tar: Tar, calls: seq<RenameCall>, history: seq<Fs>,
                         start: nat, e: Errno) {
    exists lo, hi, n, route |
      Ran(l, from, calls, history, start, lo, hi, n, e, route) ::
      e == OK ==> exists base :: Began(l, entries, tar, history, start, base, n) && Good(l, entries, tar, At(history, base))
  }

  lemma HasRunBy(l: Layout, from: Fs, entries: seq<TarEntry>, tar: Tar, calls: seq<RenameCall>, history: seq<Fs>, start: nat,
                 e: Errno, lo: nat, hi: nat, n: Tree, route: Route, base: nat)
    requires Ran(l, from, calls, history, start, lo, hi, n, e, route)
    requires e == OK ==> Began(l, entries, tar, history, start, base, n) && Good(l, entries, tar, At(history, base))
    ensures HasRun(l, from, entries, tar, calls, history, start, e)
  {
    hide Ran, Began, Good;
  }

  /** One install, seen from outside. */
  method InstallOnce(disk: Disk, l: Layout, entries: seq<TarEntry>, tar: Tar) returns (e: Errno, ghost base: nat)
    requires disk.Valid() && l.Sound() && World(l, disk.fs) && TarWorks(entries, tar, l)
    modifies disk, disk.journal
    ensures disk.Valid() && old(disk.history) <= disk.history && disk.faults >= old(disk.faults)
    ensures old(disk.journal.calls) <= disk.journal.calls
    ensures HasRun(l, old(disk.fs), entries, tar, Since(disk.journal.calls, |old(disk.journal.calls)|), disk.history,
                   |old(disk.history)|, e)
    ensures Undisturbed(l, old(disk.fs), disk.history, |old(disk.history)| - 1)
    ensures e == OK || disk.faults == old(disk.faults) ==>
      Began(l, entries, tar, disk.history, |old(disk.history)|, base, Unpacked(l, entries, tar, At(disk.history, base)))
    ensures e == OK ==>
      && Good(l, entries, tar, At(disk.history, base))
      && TreeAt(disk.fs, l.Final()) == Opened(Unpacked(l, entries, tar, At(disk.history, base)))
      && TreeAt(disk.fs, l.Staging()) == map[]
    ensures disk.faults == old(disk.faults) && Good(l, entries, tar, At(disk.history, base)) ==> e == OK
  {
    hide TreeAt, Frame, Slots, World, TarWorks, Good, Unpacked, Began, Ran, Since, Opened, HasRun, At, Undisturbed, HomeFlushed,
      Layout.Staging, Layout.Final, Layout.Sound;
    ghost var fs, start, asked := disk.fs, |disk.history|, |disk.journal.calls|;
    WorldSlots(l, fs);
    ghost var lo, hi, n, route;
    e, lo, hi, n, route, base := InstallRunnerBinary(disk, l, entries, tar);
    EndOfRun(l, fs, Since(disk.journal.calls, asked), disk.history, start, lo, hi, n, e, route);
    if e == OK || disk.faults == old(disk.faults) { BeganTree(l, entries, tar, disk.history, start, base, n); }
    HasRunBy(l, fs, entries, tar, Since(disk.journal.calls, asked), disk.history, start, e, lo, hi, n, route, base);
  }

  lemma WorldSlots(l: Layout, fs: Fs)
    requires World(l, fs)
    ensures Slots(l, fs)
  {
    hide TreeAt, OnlyDirs;
  }

  /** An install that may meet any errno and be cut short in any of its states, then another by the same or
      another process. `at` is the state the first one was cut short in, `mid` the one the second starts
      from, `asked` the number of rename calls made by then, `base` the moment the second one's extraction
      began. Whatever the first one left, the second, if it meets no fault, succeeds for a good tarball; if it
      succeeds, the published path shows exactly the tarball's tree, its staging entry is gone, and every
      other entry is as before both. */
  method CrashAndRerun(disk: Disk, l: Layout, entry: Name, attempted: seq<TarEntry>, entries: seq<TarEntry>, tar: Tar,
                       crash: nat)
      returns (first: Errno, at: nat, mid: nat, e: Errno, ghost asked: nat, ghost base: nat)
    requires disk.Valid() && l.Sound() && World(l, disk.fs) && World(l.(entry := entry), disk.fs)
    requires TarWorks(attempted, tar, l) && TarWorks(entries, tar, l.(entry := entry))
    modifies disk, disk.journal
    ensures disk.Valid() && old(disk.history) <= disk.history && |old(disk.history)| <= mid < |disk.history|
    // Any state of the first run, or the one before it, by the choice of `crash`.
    ensures at == (if |old(disk.history)| - 1 + crash < mid then |old(disk.history)| - 1 + crash else mid - 1)
    ensures disk.history[mid] == disk.history[at]
    ensures |old(disk.journal.calls)| <= asked <= |disk.journal.calls|
    ensures HasRun(l, old(disk.fs), attempted, tar, Since(disk.journal.calls[..asked], |old(disk.journal.calls)|),
                   disk.history[..mid], |old(disk.history)|, first)
    ensures HasRun(l.(entry := entry), disk.history[mid], entries, tar, Since(disk.journal.calls, asked), disk.history,
                   mid + 1, e)
    ensures e == OK || disk.faults == 0 ==>
      Began(l.(entry := entry), entries, tar, disk.history, mid + 1, base,
            Unpacked(l.(entry := entry), entries, tar, At(disk.history, base)))
    ensures disk.faults == 0 && Good(l.(entry := entry), entries, tar, At(disk.history, base)) ==> e == OK
    ensures e == OK ==>
      && Good(l.(entry := entry), entries, tar, At(disk.history, base))
      && TreeAt(disk.fs, l.Final()) == Opened(Unpacked(l.(entry := entry), entries, tar, At(disk.history, base)))
      && TreeAt(disk.fs, l.(entry := entry).Staging()) == map[]
    // Nothing of this depends on the disk if the crate unpacks the tarball alike everywhere.
    ensures Portable(entries, tar, l.(entry := entry).Staging()) ==>
      && (disk.faults == 0 && GoodTarball(entries, tar, EMPTY_DIR, [], []) ==> e == OK)
      && (e == OK ==> TreeAt(disk.fs, l.Final()) == Opened(TarTree(entries, tar, EMPTY_DIR, [])))
    ensures forall q | Foreign(l, q) && Foreign(l.(entry := entry), q) ::
      && (q in old(disk.fs) ==> q in disk.fs && disk.fs[q] == old(disk.fs)[q])
      && (q in disk.fs && q !in old(disk.fs) ==> (q <= l.home || q <= l.stagingRoot) && disk.fs[q] == Dir(NEW_DIR_MODE))
  {
    hide TreeAt, Frame, Slots, World, TarWorks, TarTree, GoodTarball, Good, Unpacked, Fresh, Extracts, Portable, Foreign, HasRun,
      Opened, Since, Layout.Staging, Layout.Final, Layout.Sound;
    ghost var fs0 := disk.fs;
    var start, l' := |disk.history|, l.(entry := entry);
    ghost var ignored;
    first, ignored := InstallOnce(disk, l, attempted, tar);
    mid := |disk.history|;
    at := if start - 1 + crash < mid then start - 1 + crash else mid - 1;
    ghost var h1, calls := disk.history, disk.journal.calls;
    asked := |calls|;
    disk.Crash(at);
    ghost var crashed := disk.fs;
    CrashStatesAreInstallable(l, entry, fs0, crashed);
    e, base := InstallOnce(disk, l', entries, tar);
    assert disk.history[..mid] == h1 && disk.journal.calls[..asked] == calls;
    if Portable(entries, tar, l'.Staging()) && (e == OK || disk.faults == 0) {
      PortableInstall(l', entries, tar, disk.history, mid + 1, base, Unpacked(l', entries, tar, At(disk.history, base)));
    }
    forall q | Foreign(l, q) && Foreign(l', q)
      ensures q in fs0 ==> q in disk.fs && disk.fs[q] == fs0[q]
      ensures q in disk.fs && q !in fs0 ==> (q <= l.home || q <= l.stagingRoot) && disk.fs[q] == Dir(NEW_DIR_MODE)
    {
      FrameOfBoth(l, entry, fs0, crashed, disk.fs, q);
    }
  }
}
