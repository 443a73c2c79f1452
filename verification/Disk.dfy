/** A disk the installer changes one system call at a time. Every call may fail with any errno;
    `history` keeps each state ever on disk, so a crash leaves one of its elements. */
module DiskModel {
  import opened FileTree

  /** `EBADMSG` is a rejected tarball; `EIO` stands for every errno the code does not name. */
  datatype Errno = OK | ENOENT | EEXIST | ENOTDIR | EXDEV | EINVAL | ENOSYS | EBADMSG | EIO

  const NEW_DIR_MODE: nat := 0x1ED // 0o755

  function Prefix(p: Path, n: nat): Path
    requires n <= |p|
  {
    p[..n]
  }

  /** No component of the path is anything but a directory. */
  predicate OnlyDirs(fs: Fs, p: Path) {
    forall n | 1 <= n <= |p| :: Prefix(p, n) in fs ==> fs[Prefix(p, n)].Dir?
  }

  /** Every component of the path is a directory. */
  predicate DirPath(fs: Fs, p: Path) {
    forall n | 1 <= n <= |p| :: Prefix(p, n) in fs && fs[Prefix(p, n)].Dir?
  }

  /** What `create_dir_all(p)` can have done to `old`. */
  predicate MkdirsOf(before: Fs, after: Fs, p: Path) {
    && (forall q | q in before :: q in after && after[q] == before[q])
    && (forall q | q in after && q !in before :: q != [] && q <= p && after[q] == Dir(NEW_DIR_MODE))
  }

  /** Part of a tree, its root kept to the last. */
  predicate PartOf(t: Tree, u: Tree) {
    && (forall r | r in t :: r in u && t[r] == u[r])
    && ([] in u && t != map[] ==> [] in t)
  }

  /** What `remove_dir_all(p)` can have left of `before`. */
  predicate RemovalOf(before: Fs, after: Fs, p: Path) {
    Without(after, p) == Without(before, p) && PartOf(TreeAt(after, p), TreeAt(before, p))
  }

  predicate NothingAt(fs: Fs, p: Path) {
    forall q | q in fs :: !(p <= q)
  }

  /** `p` is absent or a directory. */
  predicate DirOrAbsentAt(fs: Fs, p: Path) {
    TreeAt(fs, p) == map[] || IsDirectory(TreeAt(fs, p))
  }

  /** Only `p` and what lies under it may differ, and `p` is absent or a directory. */
  predicate LocalTo(before: Fs, after: Fs, p: Path) {
    Without(after, p) == Without(before, p) && DirOrAbsentAt(after, p)
  }

  lemma RemovalIsLocal(before: Fs, after: Fs, p: Path)
    requires RemovalOf(before, after, p) && DirOrAbsentAt(before, p)
    ensures LocalTo(before, after, p)
  {
    hide TreeAt, Without;
    var t := TreeAt(after, p);
    if t != map[] {
      var r :| r in t;
      assert [] in t;
    }
  }

  /** The names `read_dir` lists. */
  function ChildNames(t: Tree): set<Name> {
    set r | r in t && |r| == 1 :: r[0]
  }

  ghost predicate Deepest(keys: set<Path>, k: Path) {
    k in keys && forall q | q in keys :: |q| <= |k|
  }

  lemma DeepestExists(keys: set<Path>) returns (k: Path)
    requires keys != {}
    ensures Deepest(keys, k)
  {
    var first :| first in keys;
    var rest := keys - {first};
    k := first;
    if rest != {} {
      var d := DeepestExists(rest);
      if |d| > |k| { k := d; }
    }
    forall q | q in keys
      ensures |q| <= |k|
    {
      assert q == first || q in rest;
    }
  }

  lemma DeepestUnder(fs: Fs, p: Path) returns (k: Path)
    requires !NothingAt(fs, p)
    ensures k in fs && p <= k && forall q | q in fs && p <= q :: |q| <= |k|
  {
    var keys := set q | q in fs && p <= q;
    var q :| q in fs && p <= q;
    assert q in keys;
    k := DeepestExists(keys);
  }

  /** What the kernel answers to a rename made after that many states have been on disk. */
  type Answers = nat -> Errno

  /** A rename asked for, when so many states had been on disk, and what the kernel answered. */
  datatype RenameCall = RenameCall(exchange: bool, at: nat, answer: Errno)

  class Journal {
    ghost var calls: seq<RenameCall>

    constructor ()
      ensures calls == []
    {
      calls := [];
    }
  }

  class Disk {
    const exchangeAnswer: Answers
    const renameAnswer: Answers
    const journal: Journal
    var fs: Fs
    var history: seq<Fs>
    ghost var faults: nat
    ghost var flushed: map<Path, nat> // how many states there had been when the directory was last flushed

    ghost predicate Valid()
      reads this
    {
      history != [] && history[|history| - 1] == fs
    }

    constructor (fs: Fs, exchangeAnswer: Answers, renameAnswer: Answers)
      ensures Valid() && this.fs == fs && history == [fs] && faults == 0 && fresh(journal) && journal.calls == []
      ensures this.exchangeAnswer == exchangeAnswer && this.renameAnswer == renameAnswer
    {
      this.exchangeAnswer := exchangeAnswer;
      this.renameAnswer := renameAnswer;
      this.journal := new Journal();
      this.fs := fs;
      history := [fs];
      faults := 0;
      flushed := map[];
    }

    /** The process dies, having left the disk in its `n`th state; the next one has met no fault yet. */
    method Crash(n: nat)
      requires Valid() && n < |history|
      modifies this
      ensures Valid() && fs == old(history)[n] && history == old(history) + [fs] && faults == 0
    {
      fs := history[n];
      history := history + [fs];
      faults := 0;
    }

    /** One atomic change. */
    method Commit(next: Fs)
      requires Valid()
      modifies this
      ensures Valid() && fs == next && history == old(history) + [next] && faults == old(faults) && flushed == old(flushed)
    {
      fs := next;
      history := history + [next];
    }

    /** Maybe the call fails for a reason outside the model. */
    method Fault() returns (e: Errno)
      modifies `faults
      ensures faults == old(faults) + if e == OK then 0 else 1
    {
      e := OK;
      if * {
        e :| e != OK;
        faults := faults + 1;
      }
    }

    method CreateDir(p: Path) returns (e: Errno)
      requires Valid() && p != []
      modifies this
      ensures Valid() && faults >= old(faults)
      ensures e == OK ==> p !in old(fs) && fs == old(fs)[p := Dir(NEW_DIR_MODE)] && history == old(history) + [fs]
      ensures e != OK ==> fs == old(fs) && history == old(history)
      ensures faults == old(faults) && p !in old(fs) && DirPath(old(fs), p[..|p| - 1]) ==> e == OK
    {
      if p in fs {
        return EEXIST;
      }
      if |p| > 1 && !(p[..|p| - 1] in fs && fs[p[..|p| - 1]].Dir?) {
        assert Prefix(p[..|p| - 1], |p| - 1) == p[..|p| - 1];
        return ENOENT;
      }
      e := Fault();
      if e == OK {
        Commit(fs[p := Dir(NEW_DIR_MODE)]);
      }
    }

    method CreateDirAll(p: Path) returns (e: Errno)
      requires Valid()
      modifies this
      ensures Valid() && faults >= old(faults) && old(history) <= history
      ensures forall i | |old(history)| <= i < |history| :: MkdirsOf(old(fs), history[i], p)
      ensures MkdirsOf(old(fs), fs, p)
      ensures e == OK ==> DirPath(fs, p) && faults == old(faults)
      ensures faults == old(faults) && OnlyDirs(old(fs), p) ==> e == OK
      ensures DirPath(old(fs), p) ==> fs == old(fs) && history == old(history)
    {
      for n := 1 to |p| + 1
        invariant Valid() && faults == old(faults) && old(history) <= history
        invariant forall i | |old(history)| <= i < |history| :: MkdirsOf(old(fs), history[i], p)
        invariant MkdirsOf(old(fs), fs, p)
        invariant forall k | 1 <= k < n :: Prefix(p, k) in fs && fs[Prefix(p, k)].Dir?
        invariant DirPath(old(fs), p) ==> fs == old(fs) && history == old(history)
      {
        var q := Prefix(p, n);
        assert q <= p;
        if q !in fs {
          e := Fault();
          if e != OK {
            return;
          }
          Commit(fs[q := Dir(NEW_DIR_MODE)]);
        } else if !fs[q].Dir? {
          return ENOTDIR;
        }
      }
      return OK;
    }

    method SetDirMode(p: Path, mode: nat) returns (e: Errno)
      requires Valid()
      modifies this
      ensures Valid() && faults >= old(faults)
      ensures e == OK ==> p in old(fs) && fs == old(fs)[p := Dir(mode)] && history == old(history) + [fs]
      ensures flushed == old(flushed)
      ensures e != OK ==> fs == old(fs) && history == old(history)
      ensures faults == old(faults) && p in old(fs) && old(fs)[p].Dir? ==> e == OK
    {
      if !(p in fs && fs[p].Dir?) {
        return ENOENT;
      }
      e := Fault();
      if e == OK {
        Commit(fs[p := Dir(mode)]);
      }
    }

    /** Entries go one by one, deepest first; the call may give up anywhere. */
    method RemoveDirAll(p: Path) returns (e: Errno)
      requires Valid()
      modifies this
      ensures Valid() && faults >= old(faults) && old(history) <= history
      ensures forall i | |old(history)| <= i < |history| :: RemovalOf(old(fs), history[i], p)
      ensures RemovalOf(old(fs), fs, p)
      ensures e == OK ==> fs == Without(old(fs), p)
      ensures !IsDirectory(TreeAt(old(fs), p)) ==> e != OK && fs == old(fs) && history == old(history)
      ensures faults == old(faults) && IsDirectory(TreeAt(old(fs), p)) ==> e == OK
      ensures e != OK ==> (p in fs <==> p in old(fs))
    {
      hide RemovalOf;
      RemovalBegins(fs, p);
      if p !in fs {
        return ENOENT;
      }
      if !fs[p].Dir? {
        return ENOTDIR;
      }
      while !NothingAt(fs, p)
        invariant Valid() && faults == old(faults) && old(history) <= history
        invariant forall i | |old(history)| <= i < |history| :: RemovalOf(old(fs), history[i], p)
        invariant RemovalOf(old(fs), fs, p)
        decreases |fs|
      {
        e := Fault();
        if e != OK {
          RemovalKeepsRoot(old(fs), fs, p);
          return;
        }
        ghost var d := DeepestUnder(fs, p);
        var k :| k in fs && p <= k && forall q | q in fs && p <= q :: |q| <= |k|;
        RemoveOneEntry(old(fs), fs, p, k);
        Commit(fs - {k});
      }
      RemovalEnds(old(fs), fs, p);
      return OK;
    }

    method RenameExchange(a: Path, b: Path) returns (e: Errno)
      requires Valid() && Apart(a, b)
      modifies this, journal
      ensures Valid()
      ensures e == if a in old(fs) && b in old(fs) then exchangeAnswer(|old(history)|) else ENOENT
      ensures e == OK ==>
        && fs == Graft(Graft(old(fs), a, TreeAt(old(fs), b)), b, TreeAt(old(fs), a))
        && history == old(history) + [fs]
      ensures e != OK ==> fs == old(fs) && history == old(history)
      ensures faults == old(faults) + if e in {OK, EINVAL, ENOSYS, EXDEV} then 0 else 1
      ensures journal.calls == old(journal.calls) + [RenameCall(true, |old(history)|, e)]
    {
      e := if a in fs && b in fs then exchangeAnswer(|history|) else ENOENT;
      journal.calls := journal.calls + [RenameCall(true, |history|, e)];
      if e == OK {
        Commit(Graft(Graft(fs, a, TreeAt(fs, b)), b, TreeAt(fs, a)));
      } else if e !in {EINVAL, ENOSYS, EXDEV} {
        faults := faults + 1;
      }
    }

    /** The target must be free and its parent a directory. */
    predicate Renameable(a: Path, b: Path)
      requires b != []
      reads this
    {
      a in fs && NothingAt(fs, b) && (|b| == 1 || (b[..|b| - 1] in fs && fs[b[..|b| - 1]].Dir?))
    }

    method Rename(a: Path, b: Path) returns (e: Errno)
      requires Valid() && Apart(a, b) && b != []
      modifies this, journal
      ensures Valid()
      ensures e == if old(Renameable(a, b)) then renameAnswer(|old(history)|) else ENOENT
      ensures a in old(fs) && TreeAt(old(fs), b) == map[] && DirPath(old(fs), b[..|b| - 1]) ==> old(Renameable(a, b))
      ensures e == OK ==>
        && fs == Graft(Without(old(fs), a), b, TreeAt(old(fs), a))
        && history == old(history) + [fs]
      ensures e != OK ==> fs == old(fs) && history == old(history)
      ensures faults == old(faults) + if e in {OK, EXDEV} then 0 else 1
      ensures journal.calls == old(journal.calls) + [RenameCall(false, |old(history)|, e)]
    {
      hide TreeAt, Without, Graft, DirPath, NothingAt, Apart, Prefix;
      ParentOfTarget(fs, b);
      e := if Renameable(a, b) then renameAnswer(|history|) else ENOENT;
      journal.calls := journal.calls + [RenameCall(false, |history|, e)];
      if e == OK {
        Commit(Graft(Without(fs, a), b, TreeAt(fs, a)));
      } else if e != EXDEV {
        faults := faults + 1;
      }
    }

    /** Recreate a symbolic link. */
    method Symlink(target: string, to: Path) returns (e: Errno)
      requires Valid()
      modifies this
      ensures Valid() && faults >= old(faults)
      ensures e == OK ==> fs == old(fs)[to := Link(target)] && history == old(history) + [fs]
      ensures e != OK ==> fs == old(fs) && history == old(history)
      ensures faults == old(faults) && to !in old(fs) ==> e == OK
    {
      if to in fs {
        return EEXIST;
      }
      e := Fault();
      if e == OK {
        Commit(fs[to := Link(target)]);
      }
    }

    /** `fs::copy`: the target is created empty, then filled; a crash or error may cut it short. */
    method CopyFile(from: Path, to: Path) returns (e: Errno)
      requires Valid() && from in fs && fs[from].File? && to !in fs
      modifies this
      ensures Valid() && faults >= old(faults) && old(history) <= history
      ensures forall i | |old(history)| <= i < |history| ::
        exists data: string :: data <= old(fs)[from].data && history[i] == old(fs)[to := File(data, old(fs)[from].mode)]
      ensures e == OK ==> fs == old(fs)[to := old(fs)[from]]
      ensures fs == old(fs)
        || exists data: string :: data <= old(fs)[from].data && fs == old(fs)[to := File(data, old(fs)[from].mode)]
      ensures faults == old(faults) ==> e == OK
    {
      e := Fault();
      if e != OK {
        return;
      }
      var file := fs[from];
      var cut: nat :| cut <= |file.data|;
      Commit(fs[to := File(file.data[..cut], file.mode)]);
      e := Fault();
      if e != OK {
        return;
      }
      Commit(fs[to := file]);
      assert fs == old(fs)[to := File(file.data, file.mode)];
    }

    /** An archive reader turns the disk into `after`, through states of its own making. */
    method Rewrite(passing: seq<Fs>, after: Fs)
      requires Valid()
      modifies this
      ensures Valid() && faults == old(faults) && fs == after && history == old(history) + passing + [after]
    {
      history := history + passing + [after];
      fs := after;
    }

    method FsyncDirectory(p: Path) returns (e: Errno)
      requires Valid()
      modifies this
      ensures Valid() && faults >= old(faults) && fs == old(fs) && history == old(history)
      ensures faults == old(faults) && p in fs && fs[p].Dir? ==> e == OK
      ensures flushed == if e == OK then old(flushed)[p := |history|] else old(flushed)
    {
      if !(p in fs && fs[p].Dir?) {
        return ENOENT;
      }
      e := Fault();
      if e == OK {
        flushed := flushed[p := |history|];
      }
    }
  }

  lemma ParentOfTarget(fs: Fs, p: Path)
    requires p != []
    ensures DirPath(fs, p[..|p| - 1]) && |p| > 1 ==> p[..|p| - 1] in fs && fs[p[..|p| - 1]].Dir?
    ensures TreeAt(fs, p) == map[] ==> NothingAt(fs, p)
  {
    assert |p| > 1 ==> Prefix(p[..|p| - 1], |p| - 1) == p[..|p| - 1];
    assert forall q | q in fs && p <= q :: p + q[|p|..] == q && q[|p|..] in TreeAt(fs, p);
  }

  lemma RemovalBegins(fs: Fs, p: Path)
    ensures RemovalOf(fs, fs, p)
    ensures [] in TreeAt(fs, p) <==> p in fs
    ensures p in fs ==> TreeAt(fs, p)[[]] == fs[p]
  {
    assert p + [] == p;
  }

  lemma RemovalKeepsRoot(before: Fs, after: Fs, p: Path)
    requires RemovalOf(before, after, p) && !NothingAt(after, p) && p in before
    ensures p in after
  {
    var q :| q in after && p <= q;
    assert p + q[|p|..] == q && p + [] == p;
    assert q[|p|..] in TreeAt(after, p);
  }

  lemma RemovalEnds(before: Fs, after: Fs, p: Path)
    requires RemovalOf(before, after, p) && NothingAt(after, p)
    ensures after == Without(before, p)
  {
    hide PartOf, TreeAt;
    assert after == Without(after, p);
  }

  lemma TreeAtRemove(fs: Fs, p: Path, k: Path)
    requires p <= k
    ensures TreeAt(fs - {k}, p) == TreeAt(fs, p) - {k[|p|..]}
    ensures Without(fs - {k}, p) == Without(fs, p)
  {
    var t, u := TreeAt(fs - {k}, p), TreeAt(fs, p) - {k[|p|..]};
    assert p + k[|p|..] == k;
    forall r
      ensures r in t <==> r in u
      ensures r in t ==> t[r] == u[r]
    {
      assert (p + r)[|p|..] == r;
      assert r in t <==> p + r in fs - {k};
    }
  }

  lemma PruneDeepest(t: Tree, u: Tree, k: Path)
    requires PartOf(t, u) && k in t && forall r | r in t :: |r| <= |k|
    ensures PartOf(t - {k}, u)
  {
    assert k == [] ==> forall r | r in t :: r == [];
  }

  lemma DeepestBelow(fs: Fs, p: Path, k: Path)
    requires k in fs && p <= k && forall q | q in fs && p <= q :: |q| <= |k|
    ensures k[|p|..] in TreeAt(fs, p) && forall r | r in TreeAt(fs, p) :: |r| <= |k[|p|..]|
  {
    assert p + k[|p|..] == k;
    forall r | r in TreeAt(fs, p)
      ensures |r| <= |k| - |p|
    {
      assert p <= p + r && |p + r| == |p| + |r|;
    }
  }

  lemma RemoveOneEntry(before: Fs, fs: Fs, p: Path, k: Path)
    requires RemovalOf(before, fs, p)
    requires k in fs && p <= k && forall q | q in fs && p <= q :: |q| <= |k|
    ensures RemovalOf(before, fs - {k}, p)
  {
    TreeAtRemove(fs, p, k);
    DeepestBelow(fs, p, k);
    PruneDeepest(TreeAt(fs, p), TreeAt(before, p), k[|p|..]);
  }
}
