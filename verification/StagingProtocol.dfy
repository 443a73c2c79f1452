/** The apply lock and the staging area together: installs and collections, each only under the lock, by
    any number of processes that may die at any step. */
module StagingProtocol {
  import opened Options
  import opened FileTree
  import opened InstallLayout
  import Lock = ApplyLock
  import opened Decimals
  import opened StagingNames
  import opened StagingGc
  import Prune

  type Name = string

  /** An entry of the staging area; `maker` is the instance that made it, if any did. */
  datatype Entry = Entry(isDir: bool, mtime: Option<int>, maker: Option<Lock.Instance>)

  /** A collection under way: what is left of its listing, the clock it read, and whether nothing has gone
      wrong: the listing was complete and no removal failed. */
  datatype Pass = Pass(todo: seq<Name>, now: int, clean: bool)

  /** What a lock holder is doing. */
  datatype Work = Work(pass: Option<Pass>, installing: Option<Name>)

  datatype System = System(lock: Lock.State, staging: map<Name, Entry>, work: map<Lock.Instance, Work>)

  datatype Action =
    | LockStep(a: Lock.Action)
    | GcBegin(i: Lock.Instance, listing: seq<Name>, now: int)
    | GcEntry(i: Lock.Instance, ok: bool)
    | InstallClear(i: Lock.Instance, runner: string, version: string, ok: bool)
    | InstallBegin(i: Lock.Instance, runner: string, version: string, mtime: Option<int>)
    | InstallWrites(i: Lock.Instance, mtime: Option<int>)
    | InstallEnd(i: Lock.Instance, removed: bool)

  const IDLE := Work(None, None)

  function WorkOf(s: System, i: Lock.Instance): Work {
    if i in s.work then s.work[i] else IDLE
  }

  predicate Holds(s: System, i: Lock.Instance) {
    i in s.lock.procs && s.lock.procs[i].pc.Holding?
  }

  predicate Init(s: System) {
    Lock.Init(s.lock) && s.work == map[] && forall n | n in s.staging :: s.staging[n].maker.None?
  }

  predicate Enabled(s: System, a: Action) {
    match a
    case LockStep(l) => Lock.Enabled(s.lock, l) && (l.Release? ==> WorkOf(s, l.i) == IDLE)
    case GcBegin(i, listing, now) => Holds(s, i) && WorkOf(s, i).pass.None?
    case GcEntry(i, ok) => Holds(s, i) && WorkOf(s, i).pass.Some?
    case InstallClear(i, runner, version, ok) => Holds(s, i) && WorkOf(s, i).installing.None?
    case InstallBegin(i, runner, version, mtime) =>
      Holds(s, i) && WorkOf(s, i).installing.None? && StagingName(runner, version, s.lock.procs[i].pid) !in s.staging
    case InstallWrites(i, mtime) =>
      Holds(s, i) && WorkOf(s, i).installing.Some? && WorkOf(s, i).installing.value in s.staging
    case InstallEnd(i, removed) => Holds(s, i) && WorkOf(s, i).installing.Some?
  }

  function Next(s: System, a: Action): System
    requires Enabled(s, a)
  {
    match a
    case LockStep(l) =>
      // Whoever dies takes its work along; what it made stays.
      s.(lock := Lock.Next(s.lock, l), work := if l.Exit? then s.work - {l.i} else s.work)
    case GcBegin(i, listing, now) =>
      var complete := forall n | n in s.staging :: n in listing;
      s.(work := s.work[i := WorkOf(s, i).(pass := Some(Pass(listing, now, complete)))])
    case GcEntry(i, ok) =>
      var pass := WorkOf(s, i).pass.value;
      if pass.todo == [] then s.(work := s.work[i := WorkOf(s, i).(pass := None)])
      else
        var next := pass.(todo := pass.todo[1..], clean := pass.clean && (Collects(s, i) ==> ok));
        var rest := s.(work := s.work[i := WorkOf(s, i).(pass := Some(next))]);
        if Collects(s, i) && ok then rest.(staging := s.staging - {pass.todo[0]}) else rest
    case InstallClear(i, runner, version, ok) =>
      // What an earlier process with the same PID may have left.
      s.(staging := if ok then s.staging - {StagingName(runner, version, s.lock.procs[i].pid)} else s.staging)
    case InstallBegin(i, runner, version, mtime) =>
      var name := StagingName(runner, version, s.lock.procs[i].pid);
      s.(staging := s.staging[name := Entry(true, mtime, Some(i))],
         work := s.work[i := WorkOf(s, i).(installing := Some(name))])
    case InstallWrites(i, mtime) =>
      var name := WorkOf(s, i).installing.value;
      s.(staging := s.staging[name := s.staging[name].(mtime := mtime)])
    case InstallEnd(i, removed) =>
      s.(staging := if removed then s.staging - {WorkOf(s, i).installing.value} else s.staging,
         work := s.work[i := WorkOf(s, i).(installing := None)])
  }

  /** The collection of instance `i` is about to remove the next entry of its listing. */
  predicate Collects(s: System, i: Lock.Instance)
    requires Holds(s, i) && WorkOf(s, i).pass.Some?
  {
    var pass := WorkOf(s, i).pass.value;
    && pass.todo != [] && pass.todo[0] in s.staging
    && IsStale(s.staging[pass.todo[0]].isDir, pass.todo[0], s.staging[pass.todo[0]].mtime, pass.now, s.lock.procs[i].pid)
  }

  /** Only lock holders work. */
  predicate WorkersHold(s: System) {
    forall i | i in s.work && s.work[i] != IDLE :: Holds(s, i)
  }

  /** Whatever an instance made carries its PID in its name. */
  predicate MakersSign(s: System) {
    forall n | n in s.staging && s.staging[n].maker.Some? ::
      && s.staging[n].maker.value in s.lock.procs
      && ParseStagingDirSuffix(n) == Some(s.lock.procs[s.staging[n].maker.value].pid)
  }

  /** The directory of an install in progress is there, and is that install's. */
  predicate InstallsAreStaged(s: System) {
    forall i | i in s.work && s.work[i].installing.Some? ::
      s.work[i].installing.value in s.staging && s.staging[s.work[i].installing.value].maker == Some(i)
  }

  /** Stale, for a collection by an instance with this PID that read this clock. */
  predicate StaleEntry(s: System, n: Name, now: int, pid: nat)
    requires n in s.staging
  {
    IsStale(s.staging[n].isDir, n, s.staging[n].mtime, now, pid)
  }

  /** What a clean pass has not yet come to is all that is still stale. */
  predicate PassesAreThorough(s: System) {
    forall i, n | i in s.work && s.work[i].pass.Some? && s.work[i].pass.value.clean && i in s.lock.procs && n in s.staging ::
      StaleEntry(s, n, s.work[i].pass.value.now, s.lock.procs[i].pid) ==> n in s.work[i].pass.value.todo
  }

  predicate Inv(s: System) {
    Lock.Inv(s.lock) && WorkersHold(s) && MakersSign(s) && InstallsAreStaged(s) && PassesAreThorough(s)
  }

  lemma OneHolder(s: System, i: Lock.Instance, j: Lock.Instance)
    requires Lock.Inv(s.lock) && Holds(s, i) && Holds(s, j)
    ensures i == j
  {
    hide Lock.PidsAreDistinct, Lock.FileIsChecked, Lock.ContentIsWinners, Lock.ReadersSawWinners, Lock.ReportsAreJustified;
  }

  lemma PidBound(s: System, i: Lock.Instance)
    requires Lock.Inv(s.lock) && i in s.lock.procs
    ensures 1 <= s.lock.procs[i].pid <= Lock.PID_MAX_LIMIT
  {
    hide Lock.HolderIsCritical, Lock.FileIsChecked, Lock.ContentIsWinners, Lock.ReadersSawWinners, Lock.ReportsAreJustified;
  }

  /** A collection never takes what its own process made, nor anything an install in progress uses. */
  lemma CollectsOnlyOthers(s: System, i: Lock.Instance)
    requires Inv(s) && Holds(s, i) && WorkOf(s, i).pass.Some? && Collects(s, i)
    ensures var n := WorkOf(s, i).pass.value.todo[0];
      && s.staging[n].maker != Some(i)
      && forall j | j in s.work :: s.work[j].installing != Some(n)
  {
    hide Lock.Inv;
    var n := WorkOf(s, i).pass.value.todo[0];
    PidBound(s, i);
    forall j | j in s.work
      ensures s.work[j].installing != Some(n)
    {
      if s.work[j].installing == Some(n) {
        OneHolder(s, i, j);
      }
    }
  }

  /** No instance is forgotten and none changes its PID. */
  lemma LockKeepsProcs(s: Lock.State, a: Lock.Action)
    requires Lock.Enabled(s, a)
    ensures forall i | i in s.procs :: i in Lock.Next(s, a).procs && Lock.Next(s, a).procs[i].pid == s.procs[i].pid
    ensures forall i | i in s.procs && s.procs[i].pc.Holding? && !((a.Release? || a.Exit?) && a.i == i) ::
      Lock.Next(s, a).procs[i].pc.Holding?
  {
    hide Lock.PidLine, Lock.WriteAt, Lock.RecordedPid, Lock.IsAlive, Lock.FreshPid;
  }

  lemma LockStepIsSafe(s: System, l: Lock.Action)
    requires Inv(s) && Enabled(s, LockStep(l))
    ensures Inv(Next(s, LockStep(l)))
  {
    hide Lock.Inv, Lock.Enabled, Lock.Next;
    Lock.StepIsSafe(s.lock, l);
    LockKeepsProcs(s.lock, l);
  }

  lemma GcEntryIsSafe(s: System, i: Lock.Instance, ok: bool)
    requires Inv(s) && Enabled(s, GcEntry(i, ok))
    ensures Inv(Next(s, GcEntry(i, ok)))
  {
    hide Lock.Inv, IsStale;
    forall j | Holds(s, j)
      ensures j == i
    {
      OneHolder(s, i, j);
    }
    if Collects(s, i) { CollectsOnlyOthers(s, i); }
  }

  /** An instance never takes what carries its own PID for stale. */
  lemma OwnIsNotStale(s: System, i: Lock.Instance, isDir: bool, n: Name, mtime: Option<int>, now: int)
    requires Lock.Inv(s.lock) && i in s.lock.procs && ParseStagingDirSuffix(n) == Some(s.lock.procs[i].pid)
    ensures !IsStale(isDir, n, mtime, now, s.lock.procs[i].pid)
  {
    hide Lock.Inv, ParseStagingDirSuffix;
    PidBound(s, i);
  }

  lemma InstallStepIsSafe(s: System, a: Action)
    requires Inv(s) && Enabled(s, a) && (a.InstallClear? || a.InstallBegin? || a.InstallWrites? || a.InstallEnd? || a.GcBegin?)
    ensures Inv(Next(s, a))
  {
    hide Lock.Inv, IsStale, StagingName, ParseStagingDirSuffix;
    var i := a.i;
    PidBound(s, i);
    forall j | Holds(s, j)
      ensures j == i
    {
      OneHolder(s, i, j);
    }
    if a.InstallBegin? { StagingNameParses(a.runner, a.version, s.lock.procs[i].pid); }
    forall isDir, n, mtime, now {:trigger IsStale(isDir, n, mtime, now, s.lock.procs[i].pid)} |
      ParseStagingDirSuffix(n) == Some(s.lock.procs[i].pid)
      ensures !IsStale(isDir, n, mtime, now, s.lock.procs[i].pid)
    {
      OwnIsNotStale(s, i, isDir, n, mtime, now);
    }
  }

  lemma StepIsSafe(s: System, a: Action)
    requires Inv(s) && Enabled(s, a)
    ensures Inv(Next(s, a))
  {
    hide Inv, Next;
    match a {
      case LockStep(l) => LockStepIsSafe(s, l);
      case GcEntry(i, ok) => GcEntryIsSafe(s, i, ok);
      case _ => InstallStepIsSafe(s, a);
    }
  }

  lemma InitIsSafe(s: System)
    requires Init(s)
    ensures Inv(s)
  {
    Lock.InitIsSafe(s.lock);
  }

  function Run(s: System, actions: seq<Action>): System {
    if actions == [] then s
    else
      var before := Run(s, actions[..|actions| - 1]);
      var a := actions[|actions| - 1];
      if Enabled(before, a) then Next(before, a) else before
  }

  lemma {:induction false} RunsAreSafe(s: System, actions: seq<Action>)
    requires Init(s)
    ensures Inv(Run(s, actions))
  {
    hide Inv, Init, Enabled, Next;
    if actions == [] {
      InitIsSafe(s);
    } else {
      RunsAreSafe(s, actions[..|actions| - 1]);
      var before, a := Run(s, actions[..|actions| - 1]), actions[|actions| - 1];
      if Enabled(before, a) { StepIsSafe(before, a); }
    }
  }

  /** In every reachable state an install in progress belongs to the lock holder, and its staging
      directory is there. */
  lemma InstallKeepsItsDirectory(s: System, actions: seq<Action>, i: Lock.Instance)
    requires Init(s) && WorkOf(Run(s, actions), i).installing.Some?
    ensures var t := Run(s, actions);
      Holds(t, i) && t.lock.holder == Some(i) && WorkOf(t, i).installing.value in t.staging
  {
    hide Run, Init;
    RunsAreSafe(s, actions);
    HolderIs(Run(s, actions), i);
  }

  lemma HolderIs(s: System, i: Lock.Instance)
    requires Lock.Inv(s.lock) && Holds(s, i)
    ensures s.lock.holder == Some(i)
  {
    hide Lock.PidsAreDistinct, Lock.FileIsChecked, Lock.ContentIsWinners, Lock.ReadersSawWinners, Lock.ReportsAreJustified;
  }

  /** In every reachable state, no step of any collection removes a directory the lock holder made; what
      it removes was made by an instance that no longer holds the lock, or by none. */
  lemma CollectionSparesTheHolder(s: System, actions: seq<Action>, i: Lock.Instance, ok: bool, n: Name)
    requires Init(s)
    requires var t := Run(s, actions);
      Enabled(t, GcEntry(i, ok)) && n in t.staging && n !in Next(t, GcEntry(i, ok)).staging
    ensures var t := Run(s, actions);
      && t.lock.holder == Some(i)
      && (t.staging[n].maker.Some? ==> t.staging[n].maker != t.lock.holder && !Holds(t, t.staging[n].maker.value))
  {
    hide Run, Init, Lock.Inv, IsStale;
    RunsAreSafe(s, actions);
    var t := Run(s, actions);
    HolderIs(t, i);
    CollectsOnlyOthers(t, i);
    if t.staging[n].maker.Some? && Holds(t, t.staging[n].maker.value) { OneHolder(t, i, t.staging[n].maker.value); }
  }

  /** In every reachable state: once a pass whose listing was complete and whose removals all succeeded has
      come to its end, nothing in the staging area is stale for it, whatever happened meanwhile. */
  lemma CleanPassLeavesNothingStale(s: System, actions: seq<Action>, i: Lock.Instance)
    requires Init(s)
    requires var pass := WorkOf(Run(s, actions), i).pass; pass.Some? && pass.value.todo == [] && pass.value.clean
    ensures var t := Run(s, actions);
      && Holds(t, i)
      && forall n | n in t.staging :: !StaleEntry(t, n, WorkOf(t, i).pass.value.now, t.lock.procs[i].pid)
  {
    hide Run, Init, Lock.Inv, IsStale;
    RunsAreSafe(s, actions);
  }

  /** In every reachable state, what an install clears away before it begins was made by an instance with
      the same PID: itself, or one that has exited, or by none. */
  lemma ClearTakesTheDead(s: System, actions: seq<Action>, i: Lock.Instance, runner: string, version: string, n: Name)
    requires Init(s)
    requires var t, a := Run(s, actions), InstallClear(i, runner, version, true);
      Enabled(t, a) && n in t.staging && n !in Next(t, a).staging
    ensures var t := Run(s, actions);
      t.staging[n].maker.Some? ==>
        var m := t.staging[n].maker.value;
        m in t.lock.procs && (m == i || t.lock.procs[m].pc.Exited?)
  {
    hide Run, Init, Lock.Inv, IsStale, ParseStagingDirSuffix, StagingName;
    RunsAreSafe(s, actions);
    var t := Run(s, actions);
    PidBound(t, i);
    StagingNameParses(runner, version, t.lock.procs[i].pid);
    if t.staging[n].maker.Some? { SamePid(t, i, t.staging[n].maker.value); }
  }

  lemma SamePid(s: System, i: Lock.Instance, j: Lock.Instance)
    requires Lock.Inv(s.lock) && Holds(s, i) && j in s.lock.procs
    ensures s.lock.procs[j].pid == s.lock.procs[i].pid ==> j == i || s.lock.procs[j].pc.Exited?
  {
    hide Lock.HolderIsCritical, Lock.FileIsChecked, Lock.ContentIsWinners, Lock.ReadersSawWinners, Lock.ReportsAreJustified;
  }

  // ---------- What the protocol can do ----------------------------------------------------

  /** What the lock can do while nobody leaves, it can do whatever the staging area holds. */
  lemma {:induction false} LockRuns(s: System, actions: seq<Lock.Action>) returns (t: System)
    requires Lock.NobodyLeaves(actions)
    ensures t == s.(lock := Lock.Run(s.lock, actions))
    ensures exists steps :: t == Run(s, steps)
  {
    hide Lock.Enabled, Lock.Next;
    if actions == [] {
      t := s;
      assert t == Run(s, []);
    } else {
      var n := |actions| - 1;
      var before := LockRuns(s, actions[..n]);
      var steps :| before == Run(s, steps);
      t := before;
      if Lock.Enabled(before.lock, actions[n]) {
        t := Next(before, LockStep(actions[n]));
        assert (steps + [LockStep(actions[n])])[..|steps|] == steps;
        assert t == Run(s, steps + [LockStep(actions[n])]);
      }
    }
  }

  lemma RunOn(s: System, t: System, u: System)
    requires (exists steps :: t == Run(s, steps)) && (exists steps :: u == Run(t, steps))
    ensures exists steps :: u == Run(s, steps)
  {
    var a :| t == Run(s, a);
    var b :| u == Run(t, b);
    RunConcat(s, a, b);
  }

  lemma {:induction false} RunConcat(s: System, a: seq<Action>, b: seq<Action>)
    ensures Run(s, a + b) == Run(Run(s, a), b)
  {
    hide Enabled, Next;
    if b == [] {
      assert a + b == a;
    } else {
      var n := |b| - 1;
      assert (a + b)[..|a + b| - 1] == a + b[..n] && (a + b)[|a + b| - 1] == b[n];
      RunConcat(s, a, b[..n]);
    }
  }

  lemma OneStep(s: System, t: System, a: Action)
    requires (exists steps :: t == Run(s, steps)) && Enabled(t, a)
    ensures exists steps :: Next(t, a) == Run(s, steps)
  {
    hide Enabled, Next;
    var steps :| t == Run(s, steps);
    assert (steps + [a])[..|steps|] == steps;
    assert Next(t, a) == Run(s, steps + [a]);
  }

  /** What an install that died left in the staging area, a later process with another PID can collect, once
      it is a minute old. */
  lemma LeftoverCanBeCollected(s: System, i: Lock.Instance, runner: string, version: string, changed: int, j: Lock.Instance,
                               pid: nat, now: int) returns (crashed: System, collected: System, name: Name)
    requires Inv(s) && Holds(s, i) && WorkOf(s, i) == IDLE
    requires j !in s.lock.procs && j !in s.work && Lock.FreshPid(s.lock, pid) && now - changed >= MINUTE
    ensures name == StagingName(runner, version, s.lock.procs[i].pid)
    ensures (exists steps :: crashed == Run(s, steps)) && (exists steps :: collected == Run(s, steps))
    ensures i in crashed.lock.procs && crashed.lock.procs[i].pc.Exited? && crashed.lock.holder.None?
    ensures name in crashed.staging && crashed.staging[name] == Entry(true, Some(changed), Some(i))
    ensures name !in collected.staging
  {
    hide Run, Lock.Inv, IsStale, Lock.FreshPid, StagingName, Lock.IsAlive;
    PidBound(s, i);
    HolderIs(s, i);
    name := StagingName(runner, version, s.lock.procs[i].pid);
    NothingRun(s);
    OneStep(s, s, InstallClear(i, runner, version, true));
    var cleared := Next(s, InstallClear(i, runner, version, true));
    OneStep(s, cleared, InstallBegin(i, runner, version, Some(changed)));
    var begun := Next(cleared, InstallBegin(i, runner, version, Some(changed)));
    OneStep(s, begun, LockStep(Lock.Exit(i)));
    crashed := Next(begun, LockStep(Lock.Exit(i)));
    FreshAfterExit(s.lock, i, pid);
    var actions := Lock.CanAcquire(crashed.lock, j, pid);
    var locked := LockRuns(crashed, actions);
    RunOn(s, crashed, locked);
    OneStep(s, locked, GcBegin(j, [name], now));
    var begins := Next(locked, GcBegin(j, [name], now));
    OldIsStale(runner, version, s.lock.procs[i].pid, changed, now, pid);
    OneStep(s, begins, GcEntry(j, true));
    collected := Next(begins, GcEntry(j, true));
  }

  lemma NothingRun(s: System)
    ensures exists steps :: s == Run(s, steps)
  {
    assert s == Run(s, []);
  }

  /** A PID that is free while another process lives is free, and another one's, when that has died. */
  lemma FreshAfterExit(s: Lock.State, i: Lock.Instance, pid: nat)
    requires i in s.procs && !s.procs[i].pc.Exited? && Lock.FreshPid(s, pid) && 1 <= s.procs[i].pid
    ensures Lock.FreshPid(Lock.Next(s, Lock.Exit(i)), pid) && pid != s.procs[i].pid && pid <= I32_MAX
  {}

  // ---------- On disk -------------------------------------------------------------------

  /** The staging area on disk is the one of the system. */
  ghost predicate Shows(s: System, fs: Fs, root: Path, mtime: Times) {
    && (forall n | n in s.staging ::
          root + [n] in fs && (s.staging[n].isDir <==> fs[root + [n]].Dir?) && s.staging[n].mtime == mtime(n))
    && (forall n: Name {:trigger n in s.staging} :: root + [n] in fs ==> n in s.staging)
  }

  /** A step of a collection takes the next entry exactly if the collection on disk would. */
  lemma CollectsAsOnDisk(s: System, i: Lock.Instance, fs: Fs, root: Path, mtime: Times)
    requires Holds(s, i) && WorkOf(s, i).pass.Some? && WorkOf(s, i).pass.value.todo != [] && Shows(s, fs, root, mtime)
    ensures var pass := WorkOf(s, i).pass.value;
      Collects(s, i) <==> StaleIn(fs, root, pass.todo[0], mtime, pass.now, s.lock.procs[i].pid)
  {
    hide ParseStagingDirSuffix;
  }

  /** In every reachable state: while an install works in its staging entry, no collection that runs under the
      lock, whatever its listing and its clock, touches the tree of that entry in any state it leaves. */
  lemma CollectionLeavesTheInstall(s: System, actions: seq<Action>, i: Lock.Instance, collector: Lock.Instance, l: Layout,
                                   fs: Fs, after: Fs, listing: seq<Name>, mtime: Times, now: int)
    requires Init(s)
    requires var t := Run(s, actions); WorkOf(t, i).installing == Some(l.entry) && Holds(t, collector)
    requires var pid := Run(s, actions).lock.procs[collector].pid;
      var doomed := set n | n in listing && StaleIn(fs, l.stagingRoot, n, mtime, now, pid);
      Prune.OnlyExpendable(fs, after, l.stagingRoot, doomed)
    ensures TreeAt(after, l.Staging()) == TreeAt(fs, l.Staging())
  {
    hide Run, Init, Lock.Inv, IsStale, ParseStagingDirSuffix, Prune.OnlyExpendable, TreeAt;
    RunsAreSafe(s, actions);
    var t := Run(s, actions);
    OneHolder(t, i, collector);
    var pid := t.lock.procs[collector].pid;
    var doomed := set n | n in listing && StaleIn(fs, l.stagingRoot, n, mtime, now, pid);
    OwnIsNotStale(t, i, l.Staging() in fs && fs[l.Staging()].Dir?, l.entry, mtime(l.entry), now);
    SparedTreeStays(fs, after, l.stagingRoot, doomed, l.entry);
  }
}
