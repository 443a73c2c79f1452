/** `copy_dir_recursive`: the fallback that publishes a staged tree across file systems. */
module CopyTree {
  import opened FileTree
  import opened DiskModel

  function CopiedInode(i: Inode): Inode {
    match i
    case Dir(m) => Dir(m % PERMISSION_BITS)
    case _ => i
  }

  /** The copy of a tree: everything as it is, directory modes cut to permission bits. */
  function Copied(t: Tree): (c: Tree)
    ensures c.Keys == t.Keys && forall r | r in t :: c[r] == CopiedInode(t[r])
  {
    map r | r in t :: CopiedInode(t[r])
  }

  /** The copy once the children in `done` have been dealt with. */
  function CopiedPart(t: Tree, done: set<Name>): Tree {
    map r | r in t && (r == [] || r[0] in done) :: CopiedInode(t[r])
  }

  /** A tree whose directories carry permission bits only is copied exactly. */
  lemma CopiedMasked(t: Tree)
    requires MaskedModes(t)
    ensures Copied(t) == t
  {}

  /** Files and links come out as they are, directories with the nine permission bits of their mode. */
  lemma CopiedExactly(t: Tree, r: Path)
    requires r in t
    ensures r in Copied(t) && Copied(t).Keys == t.Keys
    ensures match t[r]
      case Dir(mode) => Copied(t)[r] == Dir(mode % 0x200)
      case inode => Copied(t)[r] == inode
  {}

  /** What a copy in progress can have made of an inode: a directory of any mode, the link itself, a file
      with a beginning of the data. */
  predicate BegunInode(i: Inode, target: Inode) {
    match target
    case Dir(_) => i.Dir?
    case Link(_) => i == target
    case File(data, mode) => i.File? && i.data <= data && i.mode == mode
  }

  /** A growing part of the tree, and nothing but that. */
  predicate Beginning(t: Tree, n: Tree) {
    forall r | r in t :: r in n && BegunInode(t[r], n[r])
  }

  /** Only `dst` has changed, and it holds the beginning of a copy. */
  predicate Growing(before: Fs, after: Fs, dst: Path, tree: Tree) {
    LocalTo(before, after, dst) && Beginning(TreeAt(after, dst), tree)
  }

  predicate HeightAtMost(t: Tree, height: nat) {
    forall r | r in t :: |r| <= height
  }

  lemma HeightExists(t: Tree) returns (height: nat)
    ensures HeightAtMost(t, height)
  {
    if t.Keys == {} {
      height := 0;
    } else {
      var k := DeepestExists(t.Keys);
      height := |k|;
    }
  }

  // ---------- Children -------------------------------------------------------

  lemma ChildTree(fs: Fs, p: Path, c: Name)
    ensures TreeAt(fs, p + [c]) == TreeAt(TreeAt(fs, p), [c])
  {
    hide TreeAt, Graft, Without;
    var a, b := TreeAt(fs, p + [c]), TreeAt(TreeAt(fs, p), [c]);
    forall r
      ensures r in a <==> r in b
      ensures r in a ==> a[r] == b[r]
    {
      assert p + [c] + r == p + ([c] + r);
    }
  }

  lemma {:induction false} TopIsChild(t: Tree, r: Path)
    requires WellFormed(t) && r in t && r != []
    ensures [r[0]] in t && r[0] in ChildNames(t)
    ensures |r| > 1 ==> t[[r[0]]].Dir?
  {
    if |r| == 1 {
      assert r == [r[0]];
    } else {
      var up := r[..|r| - 1];
      TopIsChild(t, up);
      assert up[0] == r[0];
      if |up| == 1 { assert up == [r[0]]; }
      assert [r[0]][0] == r[0];
    }
  }

  lemma ChildIsWellFormed(t: Tree, c: Name, height: nat)
    requires WellFormed(t) && HeightAtMost(t, height) && [c] in t
    ensures height > 0 && WellFormed(TreeAt(t, [c])) && HeightAtMost(TreeAt(t, [c]), height - 1)
    ensures [] in TreeAt(t, [c]) && TreeAt(t, [c])[[]] == t[[c]]
  {
    hide TreeAt, Graft, Without;
    var child := TreeAt(t, [c]);
    assert [c] + [] == [c];
    forall r | r in child && r != []
      ensures r[..|r| - 1] in child && child[r[..|r| - 1]].Dir?
    {
      var q := [c] + r;
      assert q[..|q| - 1] == [c] + r[..|r| - 1];
    }
    forall r | r in child
      ensures |r| <= height - 1
    {
      assert |[c] + r| <= height;
    }
  }

  lemma LeafChild(t: Tree, c: Name)
    requires WellFormed(t) && [c] in t && !t[[c]].Dir?
    ensures TreeAt(t, [c]) == map[[] := t[[c]]]
  {
    var child := TreeAt(t, [c]);
    assert [c] + [] == [c];
    forall r | r in child
      ensures r == []
    {
      if r != [] {
        assert ([c] + r)[0] == c;
        TopIsChild(t, [c] + r);
      }
    }
  }

  // ---------- One step of the copy -------------------------------------------

  lemma CopyBegins(fs: Fs, dst: Path, t: Tree)
    requires TreeAt(fs, dst) == map[] && [] in t && t[[]].Dir?
    ensures fs[dst := Dir(t[[]].mode % PERMISSION_BITS)] == Graft(fs, dst, CopiedPart(t, {}))
  {
    hide TreeAt, Graft, Without;
    var a, b := fs[dst := Dir(t[[]].mode % PERMISSION_BITS)], Graft(fs, dst, CopiedPart(t, {}));
    assert CopiedPart(t, {}) == map[[] := CopiedInode(t[[]])];
    forall q
      ensures q in a <==> q in b
      ensures q in a ==> a[q] == b[q]
    {
      if dst <= q {
        assert q == dst + q[|dst|..];
        assert q[|dst|..] !in TreeAt(fs, dst);
        assert q[|dst|..] == [] <==> q == dst;
      }
    }
  }

  lemma UnderChild(p: Path, c: Name, q: Path)
    ensures p + [c] <= q <==> p <= q && |q| > |p| && q[|p|] == c
  {
    assert p + [c] <= q ==> q[..|p|] == (p + [c])[..|p|];
  }

  lemma CopyChild(fs: Fs, dst: Path, t: Tree, done: set<Name>, c: Name)
    requires c !in done
    ensures Graft(Graft(fs, dst, CopiedPart(t, done)), dst + [c], Copied(TreeAt(t, [c])))
      == Graft(fs, dst, CopiedPart(t, done + {c}))
  {
    hide TreeAt, Graft, Without;
    var part, more := CopiedPart(t, done), CopiedPart(t, done + {c});
    var child := Copied(TreeAt(t, [c]));
    var a, b := Graft(Graft(fs, dst, part), dst + [c], child), Graft(fs, dst, more);
    forall q
      ensures q in a <==> q in b
      ensures q in a ==> a[q] == b[q]
    {
      if dst <= q {
        var r := q[|dst|..];
        assert q == dst + r;
        if r != [] && r[0] == c {
          assert q[..|dst| + 1] == dst + [c];
          assert q[|dst| + 1..] == r[1..];
          assert r == [c] + r[1..];
          assert r in more <==> r in t;
          assert r[1..] in child <==> r in t;
        } else {
          UnderChild(dst, c, q);
          assert r in more <==> r in part;
        }
      } else {
        UnderChild(dst, c, q);
      }
    }
  }

  lemma CopyEnds(t: Tree, done: set<Name>)
    requires WellFormed(t) && ChildNames(t) <= done
    ensures CopiedPart(t, done) == Copied(t)
  {
    forall r | r in t
      ensures r == [] || r[0] in done
    {
      if r != [] { TopIsChild(t, r); }
    }
  }

  /** A step that touches only the child `dst/c` leaves the rest of the world, and `dst`, in place. */
  lemma ChildStep(before: Fs, fs: Fs, after: Fs, dst: Path, c: Name)
    requires LocalTo(before, fs, dst) && dst in fs
    requires Without(after, dst + [c]) == Without(fs, dst + [c])
    ensures LocalTo(before, after, dst) && dst in after
  {
    hide TreeAt, Without;
    UnderChild(dst, c, dst);
    assert dst in Without(after, dst + [c]) && dst in Without(fs, dst + [c]);
    assert dst + [] == dst;
    forall q
      ensures q in Without(after, dst) <==> q in Without(fs, dst)
      ensures q in Without(after, dst) ==> Without(after, dst)[q] == Without(fs, dst)[q]
    {
      UnderChild(dst, c, q);
      assert q in Without(after, dst + [c]) <==> q in Without(fs, dst + [c]);
    }
    assert [] in TreeAt(fs, dst) && [] in TreeAt(after, dst);
  }

  lemma UpdateIsLocal(fs: Fs, p: Path, i: Inode)
    ensures Without(fs[p := i], p) == Without(fs, p)
  {}

  lemma OnlyTargetIsMissing(before: Fs, after: Fs, dst: Path)
    requires dst != [] && MkdirsOf(before, after, dst) && DirPath(before, dst[..|dst| - 1])
    ensures forall q | q in after && q !in before :: q == dst
  {
    forall n | 1 <= n < |dst|
      ensures dst[..n] in before
    {
      assert dst[..n] == Prefix(dst[..|dst| - 1], n);
    }
    assert forall q | q in after && q !in before :: q == dst[..|q|];
  }

  /** Creating the target directory. */
  lemma MkdirOfTarget(before: Fs, after: Fs, dst: Path)
    requires dst != [] && MkdirsOf(before, after, dst) && DirPath(before, dst[..|dst| - 1])
    requires TreeAt(before, dst) == map[]
    ensures LocalTo(before, after, dst)
    ensures dst in after ==> after == before[dst := Dir(NEW_DIR_MODE)]
  {
    hide TreeAt, Without, DirPath;
    OnlyTargetIsMissing(before, after, dst);
    RootOf(before, dst);
    RootOf(after, dst);
    assert Without(after, dst) == Without(before, dst);
    forall r | r in TreeAt(after, dst)
      ensures r == []
    {
      assert dst + r in before ==> r in TreeAt(before, dst);
    }
  }

  lemma TargetPath(before: Fs, after: Fs, dst: Path)
    requires dst != [] && LocalTo(before, after, dst) && dst in after && DirPath(before, dst[..|dst| - 1])
    ensures DirPath(after, dst) && after[dst].Dir?
  {
    hide TreeAt, Without;
    assert dst + [] == dst && [] in TreeAt(after, dst);
    forall n | 1 <= n <= |dst|
      ensures Prefix(dst, n) in after && after[Prefix(dst, n)].Dir?
    {
      if n < |dst| {
        var q := Prefix(dst, n);
        assert Prefix(dst[..|dst| - 1], n) == q;
        assert q in Without(before, dst) && q in Without(after, dst);
      } else {
        assert Prefix(dst, n) == dst;
      }
    }
  }

  lemma CopyingBegins(before: Fs, dst: Path)
    requires TreeAt(before, dst) == map[]
    ensures LocalTo(before, before, dst) && dst !in before
  {
    hide TreeAt, Without;
    assert dst + [] == dst;
    assert dst in before ==> [] in TreeAt(before, dst);
  }

  lemma CopyingUpdate(before: Fs, fs: Fs, dst: Path, mode: nat)
    requires LocalTo(before, fs, dst) && dst in fs
    ensures LocalTo(before, fs[dst := Dir(mode)], dst)
  {
    hide TreeAt, Without;
    assert dst + [] == dst;
    assert [] in TreeAt(fs[dst := Dir(mode)], dst);
  }

  lemma TargetGrows(before: Fs, after: Fs, dst: Path, tree: Tree)
    requires dst != [] && MkdirsOf(before, after, dst) && DirPath(before, dst[..|dst| - 1])
    requires TreeAt(before, dst) == map[] && IsDirectory(tree)
    ensures Growing(before, after, dst, tree)
  {
    hide Without, LocalTo;
    MkdirOfTarget(before, after, dst);
    RootOf(after, dst);
    OnlyTargetIsMissing(before, after, dst);
    forall r | r in TreeAt(after, dst)
      ensures r == [] && TreeAt(after, dst)[r].Dir?
    {
      assert dst + r in before ==> r in TreeAt(before, dst);
      assert dst + r == dst;
    }
  }

  lemma TargetModeGrows(before: Fs, after: Fs, dst: Path, tree: Tree)
    requires IsDirectory(tree) && TreeAt(before, dst) == map[]
    requires LocalTo(before, after, dst) || after == Graft(before, dst, CopiedPart(tree, {}))
    ensures after == Graft(before, dst, CopiedPart(tree, {})) && LocalTo(before, after, dst) ==> Growing(before, after, dst, tree)
  {
    hide TreeAt, Without, Graft, LocalTo;
    TreeAtGraft(before, dst, CopiedPart(tree, {}));
    PartsBegin(tree, {});
  }

  lemma PartsBegin(tree: Tree, done: set<Name>)
    ensures Beginning(CopiedPart(tree, done), tree)
  {}

  /** `create_dir_all` and `set_permissions` on the target. */
  method CreateTarget(disk: Disk, src: Path, dst: Path) returns (e: Errno)
    requires disk.Valid() && Apart(src, dst) && dst != [] && DirPath(disk.fs, dst[..|dst| - 1])
    requires IsDirectory(TreeAt(disk.fs, src)) && TreeAt(disk.fs, dst) == map[]
    modifies disk
    ensures disk.Valid() && disk.faults >= old(disk.faults) && old(disk.history) <= disk.history
    ensures forall i | |old(disk.history)| <= i < |disk.history| ::
      Growing(old(disk.fs), disk.history[i], dst, TreeAt(old(disk.fs), src))
    ensures Growing(old(disk.fs), disk.fs, dst, TreeAt(old(disk.fs), src))
    ensures e == OK ==> disk.fs == Graft(old(disk.fs), dst, CopiedPart(TreeAt(old(disk.fs), src), {}))
    ensures e == OK ==> dst in disk.fs
    ensures disk.faults == old(disk.faults) ==> e == OK
  {
    hide Growing, LocalTo, TreeAt, Without, Graft, MkdirsOf, CopiedPart, DirPath;
    ghost var fs0, tree := disk.fs, TreeAt(disk.fs, src);
    CopyingBegins(fs0, dst);
    TargetIsClear(fs0, dst);
    RootOf(fs0, src);
    var mode := disk.fs[src].mode;
    e := disk.CreateDirAll(dst);
    forall i | |old(disk.history)| <= i < |disk.history|
      ensures Growing(fs0, disk.history[i], dst, tree)
    {
      TargetGrows(fs0, disk.history[i], dst, tree);
    }
    TargetGrows(fs0, disk.fs, dst, tree);
    MkdirOfTarget(fs0, disk.fs, dst);
    if e != OK {
      return;
    }
    DirPathEnd(disk.fs, dst);
    CopyingUpdate(fs0, disk.fs, dst, mode % PERMISSION_BITS);
    e := disk.SetDirMode(dst, mode % PERMISSION_BITS);
    CopyBegins(fs0, dst, tree);
    TargetModeGrows(fs0, disk.fs, dst, tree);
  }

  lemma DirPathEnd(fs: Fs, p: Path)
    requires p != [] && DirPath(fs, p)
    ensures p in fs && fs[p].Dir?
  {
    assert Prefix(p, |p|) == p;
  }

  lemma TargetIsClear(fs: Fs, dst: Path)
    requires dst != [] && DirPath(fs, dst[..|dst| - 1]) && dst !in fs
    ensures OnlyDirs(fs, dst)
  {
    forall n | 1 <= n <= |dst| && Prefix(dst, n) in fs
      ensures fs[Prefix(dst, n)].Dir?
    {
      if n < |dst| { assert Prefix(dst[..|dst| - 1], n) == Prefix(dst, n); }
      assert Prefix(dst, |dst|) == dst;
    }
  }

  /** The state of a copy with the children in `done` behind it. */
  ghost predicate Copying(fs: Fs, fs0: Fs, src: Path, dst: Path, tree: Tree, done: set<Name>) {
    && Apart(src, dst) && tree == TreeAt(fs0, src)
    && fs == Graft(fs0, dst, CopiedPart(tree, done))
    && LocalTo(fs0, fs, dst) && DirPath(fs, dst) && dst in fs
  }

  lemma ChildReady(fs: Fs, fs0: Fs, src: Path, dst: Path, tree: Tree, done: set<Name>, c: Name, height: nat)
    requires Copying(fs, fs0, src, dst, tree, done) && c in ChildNames(tree) && c !in done
    requires WellFormed(tree) && HeightAtMost(tree, height)
    ensures [c] in tree && src + [c] in fs && fs[src + [c]] == tree[[c]] && TreeAt(fs, src + [c]) == TreeAt(tree, [c])
    ensures TreeAt(fs, dst + [c]) == map[] && dst + [c] !in fs && Apart(src + [c], dst + [c])
    ensures height > 0 && WellFormed(TreeAt(tree, [c])) && HeightAtMost(TreeAt(tree, [c]), height - 1)
    ensures [] in TreeAt(tree, [c]) && TreeAt(tree, [c])[[]] == tree[[c]]
    ensures (dst + [c])[..|dst + [c]| - 1] == dst
  {
    hide TreeAt, Graft, Without, LocalTo, DirPath, WellFormed, HeightAtMost, CopiedPart;
    assert [c] in tree by { var r :| r in tree && |r| == 1 && r[0] == c; assert r == [c]; }
    TreeAtGraftApart(fs0, dst, CopiedPart(tree, done), src);
    ChildTree(fs, src, c);
    ChildIsWellFormed(tree, c, height);
    ApartExtend(dst, src, [c]);
    ApartExtend(src + [c], dst, [c]);
    ChildIsAbsent(fs, fs0, dst, tree, done, c);
    RootOf(fs, dst + [c]);
  }

  lemma ChildIsAbsent(fs: Fs, fs0: Fs, dst: Path, tree: Tree, done: set<Name>, c: Name)
    requires fs == Graft(fs0, dst, CopiedPart(tree, done)) && c !in done
    ensures TreeAt(fs, dst + [c]) == map[]
  {
    hide TreeAt, Graft, Without;
    forall r
      ensures r !in TreeAt(fs, dst + [c])
    {
      var q := dst + [c] + r;
      assert q == dst + ([c] + r);
      assert dst <= q && q[|dst|..] == [c] + r && ([c] + r)[0] == c;
    }
  }

  lemma LeafDone(fs: Fs, fs0: Fs, src: Path, dst: Path, tree: Tree, done: set<Name>, c: Name)
    requires Copying(fs, fs0, src, dst, tree, done) && c in ChildNames(tree) && c !in done
    requires WellFormed(tree) && [c] in tree && !tree[[c]].Dir? && TreeAt(fs, dst + [c]) == map[]
    ensures fs[dst + [c] := tree[[c]]] == Graft(fs, dst + [c], Copied(TreeAt(tree, [c])))
  {
    hide TreeAt, Graft, Without, LocalTo, DirPath, WellFormed;
    LeafChild(tree, c);
    var to := dst + [c];
    var a, b := fs[to := tree[[c]]], Graft(fs, to, Copied(TreeAt(tree, [c])));
    forall q
      ensures q in a <==> q in b
      ensures q in a ==> a[q] == b[q]
    {
      if to <= q {
        assert q == to + q[|to|..];
        assert q[|to|..] !in TreeAt(fs, to);
        assert q[|to|..] == [] <==> q == to;
      }
    }
  }

  lemma ChildDone(fs: Fs, fs0: Fs, src: Path, dst: Path, tree: Tree, done: set<Name>, c: Name, after: Fs)
    requires Copying(fs, fs0, src, dst, tree, done) && c !in done
    requires after == Graft(fs, dst + [c], Copied(TreeAt(tree, [c])))
    ensures Copying(after, fs0, src, dst, tree, done + {c})
  {
    hide TreeAt, Graft, Without, LocalTo, DirPath, CopiedPart;
    CopyChild(fs0, dst, tree, done, c);
    WithoutGraft(fs, dst + [c], Copied(TreeAt(tree, [c])));
    ChildStep(fs0, fs, after, dst, c);
    ChildPath(fs, after, dst, c);
  }

  lemma ChildPath(fs: Fs, after: Fs, dst: Path, c: Name)
    requires DirPath(fs, dst) && Without(after, dst + [c]) == Without(fs, dst + [c])
    ensures DirPath(after, dst)
  {
    hide TreeAt, Without;
    forall n | 1 <= n <= |dst|
      ensures Prefix(dst, n) in after && after[Prefix(dst, n)].Dir?
    {
      var q := Prefix(dst, n);
      assert !(dst + [c] <= q) by { assert |q| < |dst + [c]|; }
      assert q in Without(fs, dst + [c]) && q in Without(after, dst + [c]);
    }
  }

  lemma GrowingIsLocal(before: Fs, after: Fs, dst: Path, tree: Tree)
    requires Growing(before, after, dst, tree)
    ensures LocalTo(before, after, dst)
  {}

  lemma CopyingGrows(fs: Fs, fs0: Fs, src: Path, dst: Path, tree: Tree, done: set<Name>)
    requires Copying(fs, fs0, src, dst, tree, done)
    ensures Growing(fs0, fs, dst, tree)
  {
    hide TreeAt, Without, Graft, LocalTo, DirPath;
    TreeAtGraft(fs0, dst, CopiedPart(tree, done));
    PartsBegin(tree, done);
  }

  /** While one child is being copied the whole copy is a beginning. */
  lemma ChildGrows(fs: Fs, fs0: Fs, src: Path, dst: Path, tree: Tree, done: set<Name>, c: Name, after: Fs)
    requires Copying(fs, fs0, src, dst, tree, done) && Growing(fs, after, dst + [c], TreeAt(tree, [c]))
    ensures Growing(fs0, after, dst, tree)
  {
    hide LocalTo, Graft, DirPath, Copying, BegunInode;
    GrowingIsLocal(fs, after, dst + [c], TreeAt(tree, [c]));
    CopyingIsLocal(fs, after, dst + [c]);
    CopyingParts(fs, fs0, src, dst, tree, done);
    ChildStep(fs0, fs, after, dst, c);
    forall r | r in TreeAt(after, dst)
      ensures r in tree && BegunInode(TreeAt(after, dst)[r], tree[r])
    {
      UnderChild(dst, c, dst + r);
      if dst + [c] <= dst + r {
        assert r == [c] + r[1..] && dst + r == dst + [c] + r[1..];
        assert r[1..] in TreeAt(after, dst + [c]);
      } else {
        assert dst + r in Without(after, dst + [c]) && dst + r in Without(fs, dst + [c]);
        assert Without(after, dst + [c])[dst + r] == Without(fs, dst + [c])[dst + r];
        assert r in TreeAt(fs, dst);
      }
    }
  }

  lemma CopyingParts(fs: Fs, fs0: Fs, src: Path, dst: Path, tree: Tree, done: set<Name>)
    requires Copying(fs, fs0, src, dst, tree, done)
    ensures LocalTo(fs0, fs, dst) && dst in fs && Beginning(TreeAt(fs, dst), tree)
  {
    hide TreeAt, Without, Graft, LocalTo, DirPath;
    CopyingGrows(fs, fs0, src, dst, tree, done);
  }

  lemma LeafGrows(fs: Fs, fs0: Fs, src: Path, dst: Path, tree: Tree, done: set<Name>, c: Name, i: Inode)
    requires Copying(fs, fs0, src, dst, tree, done) && TreeAt(fs, dst + [c]) == map[]
    requires [c] in tree && BegunInode(i, tree[[c]]) && !i.Dir?
    ensures Growing(fs0, fs[dst + [c] := i], dst, tree)
  {
    hide LocalTo, Graft, DirPath, Copying, BegunInode, Without;
    var after := fs[dst + [c] := i];
    UpdateIsLocal(fs, dst + [c], i);
    CopyingParts(fs, fs0, src, dst, tree, done);
    ChildStep(fs0, fs, after, dst, c);
    forall r | r in TreeAt(after, dst)
      ensures r in tree && BegunInode(TreeAt(after, dst)[r], tree[r])
    {
      if dst + r == dst + [c] {
        assert r == (dst + r)[|dst|..] == (dst + [c])[|dst|..] == [c];
      } else {
        assert r in TreeAt(fs, dst);
      }
    }
  }

  /** One directory entry: recurse, recreate the link, or copy the file. */
  method CopyEntry(disk: Disk, src: Path, dst: Path, c: Name,
                   ghost fs0: Fs, ghost tree: Tree, ghost done: set<Name>, ghost height: nat) returns (e: Errno)
    requires disk.Valid() && Copying(disk.fs, fs0, src, dst, tree, done)
    requires c in ChildNames(tree) && c !in done && WellFormed(tree) && HeightAtMost(tree, height)
    modifies disk
    ensures disk.Valid() && disk.faults >= old(disk.faults) && old(disk.history) <= disk.history
    ensures forall i | |old(disk.history)| <= i < |disk.history| :: Growing(fs0, disk.history[i], dst, tree)
    ensures Growing(fs0, disk.fs, dst, tree)
    ensures e == OK ==> Copying(disk.fs, fs0, src, dst, tree, done + {c})
    ensures disk.faults == old(disk.faults) ==> e == OK
    decreases height, 0
  {
    hide TreeAt, Graft, Without, LocalTo, DirPath, WellFormed, HeightAtMost, CopiedPart, ChildNames, IsDirectory, Growing;
    var from, to := src + [c], dst + [c];
    ghost var fs := disk.fs;
    ChildReady(fs, fs0, src, dst, tree, done, c, height);
    CopyingGrows(fs, fs0, src, dst, tree, done);
    match disk.fs[from] {
      case Dir(_) =>
        DirectoryRoot(TreeAt(tree, [c]));
        e := CopyDirRecursive(disk, from, to, height - 1);
        forall i | |old(disk.history)| <= i < |disk.history|
          ensures Growing(fs0, disk.history[i], dst, tree)
        {
          ChildGrows(fs, fs0, src, dst, tree, done, c, disk.history[i]);
        }
        ChildGrows(fs, fs0, src, dst, tree, done, c, disk.fs);
        GrowingIsLocal(fs, disk.fs, to, TreeAt(tree, [c]));
        CopyingIsLocal(fs, disk.fs, to);
        if e == OK { GraftFromParts(fs, disk.fs, to, Copied(TreeAt(tree, [c]))); }
      case Link(target) =>
        e := disk.Symlink(target, to);
        LeafGrows(fs, fs0, src, dst, tree, done, c, Link(target));
        LeafDone(fs, fs0, src, dst, tree, done, c);
      case File(all, mode) =>
        e := disk.CopyFile(from, to);
        forall data: string | data <= all
          ensures Growing(fs0, fs[to := File(data, mode)], dst, tree)
        {
          LeafGrows(fs, fs0, src, dst, tree, done, c, File(data, mode));
        }
        LeafDone(fs, fs0, src, dst, tree, done, c);
    }
    if e == OK { ChildDone(fs, fs0, src, dst, tree, done, c, disk.fs); }
  }

  lemma GraftFromParts(before: Fs, after: Fs, p: Path, t: Tree)
    requires Without(after, p) == Without(before, p) && TreeAt(after, p) == t
    ensures after == Graft(before, p, t)
  {
    hide TreeAt, Graft, Without;
    TreeAtGraft(before, p, t);
    WithoutGraft(before, p, t);
    TreeDecides(after, Graft(before, p, t), p);
  }

  lemma DirectoryRoot(t: Tree)
    requires [] in t && t[[]].Dir?
    ensures IsDirectory(t)
  {}

  lemma CopyingIsLocal(before: Fs, after: Fs, dst: Path)
    requires LocalTo(before, after, dst)
    ensures Without(after, dst) == Without(before, dst)
  {}

  /** Copy the directory at `src` to the absent path `dst`. `height` bounds the depth of the tree. */
  method CopyDirRecursive(disk: Disk, src: Path, dst: Path, ghost height: nat) returns (e: Errno)
    requires disk.Valid() && Apart(src, dst) && dst != [] && DirPath(disk.fs, dst[..|dst| - 1])
    requires WellFormed(TreeAt(disk.fs, src)) && IsDirectory(TreeAt(disk.fs, src))
    requires HeightAtMost(TreeAt(disk.fs, src), height)
    requires TreeAt(disk.fs, dst) == map[]
    modifies disk
    ensures disk.Valid() && disk.faults >= old(disk.faults) && old(disk.history) <= disk.history
    ensures forall i | |old(disk.history)| <= i < |disk.history| ::
      Growing(old(disk.fs), disk.history[i], dst, TreeAt(old(disk.fs), src))
    ensures Growing(old(disk.fs), disk.fs, dst, TreeAt(old(disk.fs), src))
    ensures e == OK ==> TreeAt(disk.fs, dst) == Copied(TreeAt(old(disk.fs), src))
    ensures disk.faults == old(disk.faults) ==> e == OK
    decreases height, 1
  {
    hide TreeAt, Graft, Without, LocalTo, DirPath, WellFormed, HeightAtMost, CopiedPart, Copied, ChildNames, Growing;
    ghost var fs0, tree := disk.fs, TreeAt(disk.fs, src);
    e := CreateTarget(disk, src, dst);
    if e != OK {
      return;
    }
    GrowingIsLocal(fs0, disk.fs, dst, tree);
    TargetPath(fs0, disk.fs, dst);
    TreeAtGraftApart(fs0, dst, CopiedPart(tree, {}), src);
    var todo := ChildNames(TreeAt(disk.fs, src));
    ghost var done: set<Name> := {};
    while todo != {}
      invariant disk.Valid() && disk.faults >= old(disk.faults) && old(disk.history) <= disk.history
      invariant forall i | |old(disk.history)| <= i < |disk.history| :: Growing(fs0, disk.history[i], dst, tree)
      invariant Copying(disk.fs, fs0, src, dst, tree, done)
      invariant done !! todo && done + todo == ChildNames(tree)
      decreases todo
    {
      var c :| c in todo;
      todo := todo - {c};
      e := CopyEntry(disk, src, dst, c, fs0, tree, done, height);
      if e != OK {
        return;
      }
      done := done + {c};
    }
    CopyingGrows(disk.fs, fs0, src, dst, tree, done);
    CopyEnds(tree, done);
    TreeAtGraft(fs0, dst, Copied(tree));
    return OK;
  }
}
