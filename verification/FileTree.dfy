/** A file system as the map from absolute paths to inodes, and whole trees inside it. */
module FileTree {

  type Name = string

  type Path = seq<Name>

  datatype Inode = File(data: string, mode: nat) | Dir(mode: nat) | Link(target: string)

  type Fs = map<Path, Inode>

  /** Contents of a directory by path relative to it; the directory itself is `[]`. */
  type Tree = map<Path, Inode>

  const PERMISSION_BITS: nat := 512 // 0o777 + 1

  function TreeAt(fs: Fs, p: Path): (t: Tree)
    ensures forall r {:trigger r in t} :: r in t <==> p + r in fs
    ensures forall r {:trigger t[r]} | r in t :: t[r] == fs[p + r]
  {
    var below := set q | q in fs && p <= q :: q[|p|..];
    assert forall q | q in fs && p <= q :: p + q[|p|..] == q;
    assert forall r {:trigger p + r} :: (p + r)[|p|..] == r;
    map r | r in below :: fs[p + r]
  }

  function Without(fs: Fs, p: Path): (r: Fs)
    ensures forall q :: q in r <==> q in fs && !(p <= q)
    ensures forall q | q in r :: r[q] == fs[q]
  {
    map q | q in fs && !(p <= q) :: fs[q]
  }

  /** Put tree `t` at `p`, in place of whatever is there. */
  function Graft(fs: Fs, p: Path, t: Tree): (r: Fs)
    ensures forall q {:trigger q in r} :: q in r <==> if p <= q then q[|p|..] in t else q in fs
    ensures forall q {:trigger r[q]} | q in r :: r[q] == if p <= q then t[q[|p|..]] else fs[q]
  {
    var moved := set r | r in t :: p + r;
    assert forall r | r in t :: p <= p + r && (p + r)[|p|..] == r;
    assert forall q | p <= q :: p + q[|p|..] == q;
    Without(fs, p) + map q | q in moved :: t[q[|p|..]]
  }

  /** Neither path lies inside the other. */
  predicate Apart(p: Path, q: Path) {
    !(p <= q) && !(q <= p)
  }

  lemma PrefixTrans(a: Path, b: Path, c: Path)
    ensures a <= b <= c ==> a <= c
  {}

  lemma PrefixesNest(a: Path, b: Path, c: Path)
    ensures a <= c && b <= c && |a| <= |b| ==> a <= b
  {}

  lemma ApartExtend(p: Path, q: Path, r: Path)
    requires Apart(p, q)
    ensures !(p <= q + r) && !(q + r <= p)
  {
    assert (q + r)[..|q|] == q;
    assert |p| <= |q| ==> (q + r)[..|p|] == q[..|p|];
  }

  lemma RootOf(fs: Fs, p: Path)
    ensures p in fs <==> [] in TreeAt(fs, p)
    ensures p in fs ==> TreeAt(fs, p)[[]] == fs[p]
  {
    assert p + [] == p;
  }

  lemma TreeAtGraft(fs: Fs, p: Path, t: Tree)
    ensures TreeAt(Graft(fs, p, t), p) == t
  {
    var g := Graft(fs, p, t);
    forall r
      ensures r in TreeAt(g, p) <==> r in t
      ensures r in t ==> TreeAt(g, p)[r] == t[r]
    {
      assert p <= p + r && (p + r)[|p|..] == r;
    }
  }

  lemma WithoutGraft(fs: Fs, p: Path, t: Tree)
    ensures Without(Graft(fs, p, t), p) == Without(fs, p)
  {}

  lemma TreeAtGraftApart(fs: Fs, p: Path, t: Tree, q: Path)
    requires Apart(p, q)
    ensures TreeAt(Graft(fs, p, t), q) == TreeAt(fs, q)
  {
    forall r
      ensures r in TreeAt(Graft(fs, p, t), q) <==> r in TreeAt(fs, q)
      ensures r in TreeAt(fs, q) ==> TreeAt(Graft(fs, p, t), q)[r] == TreeAt(fs, q)[r]
    {
      ApartExtend(p, q, r);
    }
  }

  lemma TreeAtWithoutApart(fs: Fs, p: Path, q: Path)
    requires Apart(p, q)
    ensures TreeAt(Without(fs, p), q) == TreeAt(fs, q)
  {
    forall r
      ensures r in TreeAt(Without(fs, p), q) <==> r in TreeAt(fs, q)
      ensures r in TreeAt(fs, q) ==> TreeAt(Without(fs, p), q)[r] == TreeAt(fs, q)[r]
    {
      ApartExtend(p, q, r);
    }
  }

  /** Two states that agree outside `p` agree on every tree apart from `p`. */
  lemma AgreeApart(fs: Fs, gs: Fs, p: Path, q: Path)
    requires Without(fs, p) == Without(gs, p) && Apart(p, q)
    ensures TreeAt(fs, q) == TreeAt(gs, q)
  {
    TreeAtWithoutApart(fs, p, q);
    TreeAtWithoutApart(gs, p, q);
  }

  lemma TreeDecides(fs: Fs, gs: Fs, p: Path)
    requires Without(fs, p) == Without(gs, p) && TreeAt(fs, p) == TreeAt(gs, p)
    ensures fs == gs
  {
    forall q
      ensures q in fs <==> q in gs
      ensures q in fs ==> fs[q] == gs[q]
    {
      if p <= q {
        assert q == p + q[|p|..];
        assert q[|p|..] in TreeAt(fs, p) <==> q[|p|..] in TreeAt(gs, p);
      } else {
        assert q in Without(fs, p) <==> q in Without(gs, p);
      }
    }
  }

  /** Every entry of the tree has its parent directory in the tree. */
  predicate WellFormed(t: Tree) {
    forall r | r in t && r != [] :: r[..|r| - 1] in t && t[r[..|r| - 1]].Dir?
  }

  /** Directories carry permission bits only. */
  predicate MaskedModes(t: Tree) {
    forall r | r in t && t[r].Dir? :: t[r].mode < PERMISSION_BITS
  }

  predicate IsDirectory(t: Tree) {
    [] in t && t[[]].Dir?
  }
}
