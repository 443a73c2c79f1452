/** Collecting staging directories that crashed installs left behind, and why doing so under the apply
    lock never touches the install in progress. */
module StagingGc {
  import opened Options
  import opened Text
  import opened Decimals
  import opened FileTree
  import opened DiskModel
  import opened StagingNames
  import opened Prune

  const STALE_AGE_SECS: int := 60
  const NANOS_PER_SEC: int := 1_000_000_000

  /** The collector's own PID as it compares it. */
  function OwnPid(pid: nat): int {
    if pid <= I32_MAX then pid else I32_MAX
  }

  /** A directory whose name carries another process's PID, last changed at least a minute before `now`;
      an unknown or future time is no reason to remove it. Times are in nanoseconds. */
  predicate IsStale(isDir: bool, name: Name, mtime: Option<int>, now: int, pid: nat) {
    && isDir
    && ParseStagingDirSuffix(name).Some? && ParseStagingDirSuffix(name).value != OwnPid(pid)
    && mtime.Some? && mtime.value <= now && (now - mtime.value) / NANOS_PER_SEC >= STALE_AGE_SECS
  }

  type Times = Name -> Option<int>

  predicate StaleIn(fs: Fs, root: Path, name: Name, mtime: Times, now: int, pid: nat) {
    IsStale(root + [name] in fs && fs[root + [name]].Dir?, name, mtime(name), now, pid)
  }

  /** Half-way through the listing: only stale ones touched, those to come untouched, and unless a removal
      has failed the stale ones among those done are gone. */
  ghost predicate Collecting(fs0: Fs, fs: Fs, root: Path, names: seq<Name>, doomed: set<Name>, k: nat, clean: bool)
    requires k <= |names|
  {
    && OnlyExpendable(fs0, fs, root, doomed)
    && (forall j | k <= j < |names| :: TreeAt(fs, root + [names[j]]) == TreeAt(fs0, root + [names[j]]))
    && (clean ==> forall j | 0 <= j < k :: names[j] in doomed ==> TreeAt(fs, root + [names[j]]) == map[])
  }

  lemma CollectingRemoves(fs0: Fs, fs: Fs, after: Fs, root: Path, names: seq<Name>, doomed: set<Name>, k: nat, clean: bool, ok: bool)
    requires Distinct(names) && k < |names| && Collecting(fs0, fs, root, names, doomed, k, clean) && names[k] in doomed
    requires Without(after, root + [names[k]]) == Without(fs, root + [names[k]])
    requires ok ==> TreeAt(after, root + [names[k]]) == map[]
    ensures Collecting(fs0, after, root, names, doomed, k + 1, clean && ok)
  {
    hide TreeAt, Without, OnlyExpendable;
    StaysOnlyExpendable(fs0, fs, after, root, doomed, names[k]);
    forall j | 0 <= j < |names| && j != k
      ensures TreeAt(after, root + [names[j]]) == TreeAt(fs, root + [names[j]])
    {
      SiblingStays(fs, after, root, names[k], names[j]);
    }
  }

  lemma StillSame(fs0: Fs, fs: Fs, root: Path, names: seq<Name>, doomed: set<Name>, k: nat, clean: bool)
    requires k < |names| && Collecting(fs0, fs, root, names, doomed, k, clean)
    ensures var p := root + [names[k]];
      (p in fs <==> p in fs0) && (p in fs ==> fs[p] == fs0[p]) && (p in fs && fs[p].Dir? ==> IsDirectory(TreeAt(fs, p)))
  {
    hide TreeAt, OnlyExpendable;
    RootOf(fs, root + [names[k]]);
    RootOf(fs0, root + [names[k]]);
  }

  lemma RemovalStays(fs0: Fs, fs: Fs, h: Fs, root: Path, names: seq<Name>, doomed: set<Name>, k: nat, clean: bool)
    requires k < |names| && Collecting(fs0, fs, root, names, doomed, k, clean) && names[k] in doomed
    requires RemovalOf(fs, h, root + [names[k]])
    ensures OnlyExpendable(fs0, h, root, doomed) && Without(h, root + [names[k]]) == Without(fs, root + [names[k]])
  {
    hide TreeAt, OnlyExpendable, Without;
    StaysOnlyExpendable(fs0, fs, h, root, doomed, names[k]);
  }

  lemma CollectingEnds(fs0: Fs, fs: Fs, root: Path, names: seq<Name>, mtime: Times, now: int, pid: nat, doomed: set<Name>)
    requires doomed == set n | n in names && StaleIn(fs0, root, n, mtime, now, pid)
    requires Collecting(fs0, fs, root, names, doomed, |names|, true)
    ensures forall n | n in doomed :: TreeAt(fs, root + [n]) == map[]
    ensures forall n | n in names :: !StaleIn(fs, root, n, mtime, now, pid)
  {
    hide TreeAt, OnlyExpendable, IsStale;
    forall n | n in doomed
      ensures TreeAt(fs, root + [n]) == map[]
    {
      var j :| 0 <= j < |names| && names[j] == n;
    }
    forall n | n in names
      ensures !StaleIn(fs, root, n, mtime, now, pid)
    {
      if n in doomed {
        RootOf(fs, root + [n]);
        NotADirectory(n, mtime(n), now, pid);
      } else {
        NameStays(fs0, fs, root, doomed, n);
      }
    }
  }

  lemma NotADirectory(name: Name, mtime: Option<int>, now: int, pid: nat)
    ensures !IsStale(false, name, mtime, now, pid)
  {}

  /** `gc_stale_staging_dirs`: a listing that cannot be read means nothing to do. */
  method GcStaleStagingDirs(disk: Disk, root: Path, listing: Option<seq<Name>>, mtime: Times, now: int, pid: nat)
    requires disk.Valid() && (listing.Some? ==> Distinct(listing.value))
    modifies disk
    ensures disk.Valid() && old(disk.history) <= disk.history && disk.faults >= old(disk.faults)
    ensures listing.None? ==> disk.fs == old(disk.fs) && disk.history == old(disk.history)
    ensures listing.Some? ==>
      var fs := old(disk.fs);
      var doomed := set n | n in listing.value && StaleIn(fs, root, n, mtime, now, pid);
      && (forall i | |old(disk.history)| <= i < |disk.history| :: OnlyExpendable(fs, disk.history[i], root, doomed))
      && OnlyExpendable(fs, disk.fs, root, doomed)
      && (disk.faults == old(disk.faults) ==>
            && (forall n | n in doomed :: TreeAt(disk.fs, root + [n]) == map[])
            && (forall n | n in listing.value :: !StaleIn(disk.fs, root, n, mtime, now, pid)))
  {
    hide TreeAt, Without, OnlyExpendable, RemovalOf, IsStale, Collecting, Distinct;
    if listing.None? {
      return;
    }
    var names := listing.value;
    ghost var fs0, clean := disk.fs, true;
    ghost var doomed := set n | n in names && StaleIn(fs0, root, n, mtime, now, pid);
    CollectingBegins(fs0, root, names, doomed);
    for k := 0 to |names|
      invariant disk.Valid() && old(disk.history) <= disk.history && disk.faults >= old(disk.faults)
      invariant forall i | |old(disk.history)| <= i < |disk.history| :: OnlyExpendable(fs0, disk.history[i], root, doomed)
      invariant Collecting(fs0, disk.fs, root, names, doomed, k, clean) && (disk.faults == old(disk.faults) ==> clean)
    {
      var name := names[k];
      var p := root + [name];
      ghost var fs := disk.fs;
      StillSame(fs0, fs, root, names, doomed, k, clean);
      if IsStale(p in disk.fs && disk.fs[p].Dir?, name, mtime(name), now, pid) {
        NotADirectory(name, mtime(name), now, pid);
        var e := disk.RemoveDirAll(p);
        forall h | RemovalOf(fs, h, p)
          ensures OnlyExpendable(fs0, h, root, doomed) && Without(h, p) == Without(fs, p)
        {
          RemovalStays(fs0, fs, h, root, names, doomed, k, clean);
        }
        CollectingRemoves(fs0, fs, disk.fs, root, names, doomed, k, clean, e == OK);
        clean := clean && e == OK;
      } else {
        CollectingKeeps(fs0, fs, root, names, doomed, k, clean);
      }
    }
    CollectingHolds(fs0, disk.fs, root, names, doomed, clean);
    if clean { CollectingEnds(fs0, disk.fs, root, names, mtime, now, pid, doomed); }
  }

  lemma CollectingHolds(fs0: Fs, fs: Fs, root: Path, names: seq<Name>, doomed: set<Name>, clean: bool)
    requires Collecting(fs0, fs, root, names, doomed, |names|, clean)
    ensures OnlyExpendable(fs0, fs, root, doomed)
  {}

  lemma CollectingBegins(fs0: Fs, root: Path, names: seq<Name>, doomed: set<Name>)
    ensures Collecting(fs0, fs0, root, names, doomed, 0, true)
  {}

  lemma CollectingKeeps(fs0: Fs, fs: Fs, root: Path, names: seq<Name>, doomed: set<Name>, k: nat, clean: bool)
    requires k < |names| && Collecting(fs0, fs, root, names, doomed, k, clean) && names[k] !in doomed
    ensures Collecting(fs0, fs, root, names, doomed, k + 1, clean)
  {
    hide TreeAt, OnlyExpendable;
  }

  // ---------- By name and age ------------------------------------------------------------

  const MINUTE: int := 60_000_000_000 // in nanoseconds

  /** A directory that another process made and that was last changed a minute ago or earlier is stale. */
  lemma OldIsStale(runner: string, version: string, maker: nat, changed: int, now: int, pid: nat)
    requires maker <= I32_MAX && maker != pid && pid <= I32_MAX && now - changed >= MINUTE
    ensures IsStale(true, StagingName(runner, version, maker), Some(changed), now, pid)
  {
    hide StagingName, ParseStagingDirSuffix;
    StagingNameParses(runner, version, maker);
  }

  /** Nothing is stale that is younger, of unknown or future age, one's own, unreadable by name, or no
      directory. */
  lemma OthersAreNot(isDir: bool, name: Name, mtime: Option<int>, now: int, pid: nat)
    ensures !isDir || mtime.None? || now - mtime.value < MINUTE || ParseStagingDirSuffix(name).None? ==>
      !IsStale(isDir, name, mtime, now, pid)
    ensures forall runner, version :: pid <= I32_MAX && name == StagingName(runner, version, pid) ==>
      !IsStale(isDir, name, mtime, now, pid)
  {
    hide StagingName, ParseStagingDirSuffix;
    forall runner, version | pid <= I32_MAX && name == StagingName(runner, version, pid)
      ensures !IsStale(isDir, name, mtime, now, pid)
    {
      StagingNameParses(runner, version, pid);
    }
  }

  /** Is this listed directory to go, by who made it and how old it is? */
  ghost predicate MadeByAnotherLongAgo(fs: Fs, root: Path, name: Name, mtime: Times, now: int, pid: nat) {
    && root + [name] in fs && fs[root + [name]].Dir?
    && mtime(name).Some? && now - mtime(name).value >= MINUTE
    && exists runner, version, maker: nat :: maker <= I32_MAX && maker != pid && name == StagingName(runner, version, maker)
  }

  /** To be left alone: no directory, too young, its age unknown or in the future, made by the collector, or
      not named by a PID at all. */
  ghost predicate ToBeSpared(fs: Fs, root: Path, name: Name, mtime: Times, now: int, pid: nat) {
    || !(root + [name] in fs && fs[root + [name]].Dir?)
    || mtime(name).None? || now - mtime(name).value < MINUTE
    || (exists runner, version :: name == StagingName(runner, version, pid))
    || ParseI32(AfterLastDash(name)).None?
  }

  function AfterLastDash(name: Name): string {
    var parts := RSplitOnce(name, '-');
    if parts.Some? then parts.value.1 else ""
  }

  lemma SparedIsNotStale(fs: Fs, root: Path, name: Name, mtime: Times, now: int, pid: nat)
    requires pid <= I32_MAX && ToBeSpared(fs, root, name, mtime, now, pid)
    ensures !StaleIn(fs, root, name, mtime, now, pid)
  {
    hide StagingName;
    OthersAreNot(root + [name] in fs && fs[root + [name]].Dir?, name, mtime(name), now, pid);
    if ParseI32(AfterLastDash(name)).None? {
      assert ParseI32("").None?;
    }
  }

  lemma LongAgoIsStale(fs: Fs, root: Path, name: Name, mtime: Times, now: int, pid: nat)
    requires pid <= I32_MAX && MadeByAnotherLongAgo(fs, root, name, mtime, now, pid)
    ensures StaleIn(fs, root, name, mtime, now, pid)
  {
    hide StagingName, IsStale;
    var runner, version, maker: nat :| maker <= I32_MAX && maker != pid && name == StagingName(runner, version, maker);
    OldIsStale(runner, version, maker, mtime(name).value, now, pid);
  }

  lemma SparedTreeStays(fs: Fs, after: Fs, root: Path, doomed: set<Name>, name: Name)
    requires OnlyExpendable(fs, after, root, doomed) && name !in doomed
    ensures TreeAt(after, root + [name]) == TreeAt(fs, root + [name])
  {
    var p := root + [name];
    forall r
      ensures p + r in after <==> p + r in fs
      ensures p + r in fs ==> after[p + r] == fs[p + r]
    {
      assert (p + r)[|root|] == name;
      assert forall c | root + [c] <= p + r :: (root + [c])[|root|] == (p + r)[|root|] == name;
    }
  }

  /** What a collection does, by name and age: whatever fails, the trees of those to be spared, listed or
      not, are the same in every state; without a failure, every listed directory that another process
      made and last changed a minute ago or earlier is gone. */
  method CollectByAge(disk: Disk, root: Path, listing: seq<Name>, mtime: Times, now: int, pid: nat)
    requires disk.Valid() && Distinct(listing) && pid <= I32_MAX
    modifies disk
    ensures disk.Valid() && old(disk.history) <= disk.history && disk.faults >= old(disk.faults)
    ensures forall i, n | |old(disk.history)| <= i < |disk.history| && ToBeSpared(old(disk.fs), root, n, mtime, now, pid) ::
      TreeAt(disk.history[i], root + [n]) == TreeAt(old(disk.fs), root + [n])
    ensures disk.faults == old(disk.faults) ==>
      forall n | n in listing && MadeByAnotherLongAgo(old(disk.fs), root, n, mtime, now, pid) ::
        TreeAt(disk.fs, root + [n]) == map[]
  {
    hide TreeAt, OnlyExpendable, StaleIn, ToBeSpared, MadeByAnotherLongAgo, Distinct;
    ghost var fs, start := disk.fs, |disk.history|;
    GcStaleStagingDirs(disk, root, Some(listing), mtime, now, pid);
    ghost var doomed := set n | n in listing && StaleIn(fs, root, n, mtime, now, pid);
    forall i, n | start <= i < |disk.history| && ToBeSpared(fs, root, n, mtime, now, pid)
      ensures TreeAt(disk.history[i], root + [n]) == TreeAt(fs, root + [n])
    {
      SparedIsNotStale(fs, root, n, mtime, now, pid);
      SparedTreeStays(fs, disk.history[i], root, doomed, n);
    }
    forall n | n in listing && MadeByAnotherLongAgo(fs, root, n, mtime, now, pid)
      ensures n in doomed
    {
      LongAgoIsStale(fs, root, n, mtime, now, pid);
    }
  }
}
