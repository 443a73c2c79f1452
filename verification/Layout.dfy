/** Where an install works, and what its single steps do to the two trees it moves. */
module InstallLayout {
  import opened FileTree
  import opened DiskModel

  /** `<state_dir>/.staging`, the staging entry in it, the runner home, the `bin.<version>` in that. */
  datatype Layout = Layout(stagingRoot: Path, entry: Name, home: Path, bin: Name) {
    function Staging(): Path {
      stagingRoot + [entry]
    }

    function Final(): Path {
      home + [bin]
    }

    /** The staging area and the published tree do not lie inside each other; neither parent is `/`. */
    predicate Sound() {
      stagingRoot != [] && home != [] && !(stagingRoot <= Final()) && !(Final() <= stagingRoot)
    }
  }

  /** Where the program works by default: the staging area and the runner's home below `/var/lib/ghars`. */
  function DefaultLayout(zone: Name, runner: Name, version: Name, entry: Name): Layout {
    Layout(["var", "lib", "ghars", ".staging"], entry, ["var", "lib", "ghars", zone, "ghars-" + runner], "bin." + version)
  }

  /** That is sound whatever the runner is called, unless the trust zone is called `.staging`; and an empty
      disk is one to start from. */
  lemma DefaultIsSound(zone: Name, runner: Name, version: Name, entry: Name)
    requires zone != ".staging"
    ensures DefaultLayout(zone, runner, version, entry).Sound()
    ensures World(DefaultLayout(zone, runner, version, entry), map[])
  {
    var l := DefaultLayout(zone, runner, version, entry);
    assert l.stagingRoot[3] == ".staging" && l.Final()[3] == zone;
  }

  lemma SoundApart(l: Layout)
    requires l.Sound()
    ensures Apart(l.Staging(), l.Final()) && !(l.Staging() <= l.home)
  {
    var s, f := l.Staging(), l.Final();
    assert l.stagingRoot <= s && l.home <= f;
    PrefixTrans(l.stagingRoot, s, f);
    PrefixTrans(s, l.home, f);
    PrefixesNest(f, l.stagingRoot, s);
  }

  /** Entries the install has no business with. */
  predicate Foreign(l: Layout, q: Path) {
    !(l.Staging() <= q) && !(l.Final() <= q) && q != l.stagingRoot
  }

  /** Foreign entries stay as they are; new ones are ancestors of the home or of the staging area, and
      the staging area is at most made or has its mode changed. */
  ghost predicate Frame(l: Layout, before: Fs, after: Fs) {
    && (forall q | Foreign(l, q) ::
         && (q in before ==> q in after && after[q] == before[q])
         && (q in after && q !in before ==> (q <= l.home || q <= l.stagingRoot) && after[q] == Dir(NEW_DIR_MODE)))
    && (var r := l.stagingRoot;
        && (r in before ==> r in after && (after[r] == before[r] || (before[r].Dir? && after[r].Dir?)))
        && (r in after && r !in before ==> after[r].Dir?))
  }

  /** What an install can start from: nothing but directories on its way. */
  predicate World(l: Layout, fs: Fs) {
    Slots(l, fs) && OnlyDirs(fs, l.stagingRoot) && OnlyDirs(fs, l.home)
  }

  /** An install leaves every later install something to start from. */
  lemma WorldStays(l: Layout, a: Fs, b: Fs)
    requires l.Sound() && World(l, a) && Frame(l, a, b) && Slots(l, b)
    ensures World(l, b)
  {
    hide Slots;
    PathStays(l, a, b, l.home);
    PathStays(l, a, b, l.stagingRoot);
  }

  lemma PathStays(l: Layout, a: Fs, b: Fs, p: Path)
    requires l.Sound() && (p == l.home || p == l.stagingRoot) && OnlyDirs(a, p) && Frame(l, a, b)
    ensures OnlyDirs(b, p)
  {
    AncestorsElsewhere(l, p);
    forall n | 1 <= n <= |p|
      ensures Prefix(p, n) in b ==> b[Prefix(p, n)].Dir?
    {
      var q := Prefix(p, n);
      assert q <= p;
      PrefixTrans(l.Final(), q, p);
      PrefixTrans(l.Staging(), q, p);
      assert q != l.stagingRoot ==> Foreign(l, q);
      assert q in a ==> a[q].Dir?;
    }
  }

  /** Both slots are absent or directories. */
  predicate Slots(l: Layout, fs: Fs) {
    DirOrAbsentAt(fs, l.Staging()) && DirOrAbsentAt(fs, l.Final())
  }

  lemma FrameTrans(l: Layout, a: Fs, b: Fs, c: Fs)
    requires Frame(l, a, b) && Frame(l, b, c)
    ensures Frame(l, a, c)
  {}

  lemma FrameFromAgreement(l: Layout, a: Fs, b: Fs, p: Path)
    requires l.Sound() && Without(a, p) == Without(b, p) && (p == l.Staging() || p == l.Final())
    ensures Frame(l, a, b)
  {
    SoundApart(l);
    forall q | Foreign(l, q) || q == l.stagingRoot
      ensures q in a <==> q in b
      ensures q in a ==> a[q] == b[q]
    {
      assert q in Without(a, p) <==> q in Without(b, p);
      assert q in a ==> a[q] == Without(a, p)[q];
    }
  }

  /** Work under the staging entry. */
  lemma StagingWork(l: Layout, a: Fs, b: Fs)
    requires l.Sound() && Slots(l, a) && LocalTo(a, b, l.Staging())
    ensures Frame(l, a, b) && Slots(l, b) && TreeAt(b, l.Final()) == TreeAt(a, l.Final())
  {
    hide TreeAt, Without, Frame;
    SoundApart(l);
    FrameFromAgreement(l, a, b, l.Staging());
    AgreeApart(a, b, l.Staging(), l.Final());
  }

  /** Work under the published path. */
  lemma FinalWork(l: Layout, a: Fs, b: Fs)
    requires l.Sound() && Slots(l, a) && LocalTo(a, b, l.Final())
    ensures Frame(l, a, b) && Slots(l, b) && TreeAt(b, l.Staging()) == TreeAt(a, l.Staging())
  {
    hide TreeAt, Without, Frame;
    SoundApart(l);
    FrameFromAgreement(l, a, b, l.Final());
    AgreeApart(a, b, l.Final(), l.Staging());
  }

  lemma RemovedIsAbsent(fs: Fs, p: Path)
    ensures TreeAt(Without(fs, p), p) == map[]
  {
    forall r
      ensures r !in TreeAt(Without(fs, p), p)
    {
      assert p <= p + r;
    }
  }

  /** Removing one of the slots. */
  lemma RemoveEffect(l: Layout, a: Fs, p: Path)
    requires l.Sound() && Slots(l, a) && (p == l.Staging() || p == l.Final())
    ensures LocalTo(a, Without(a, p), p) && TreeAt(Without(a, p), p) == map[]
  {
    hide TreeAt, Without;
    RemovedIsAbsent(a, p);
    WithoutTwice(a, p);
  }

  lemma WithoutTwice(fs: Fs, p: Path)
    ensures Without(Without(fs, p), p) == Without(fs, p)
  {}

  /** `renameat2(RENAME_EXCHANGE)` on the two slots. */
  lemma ExchangeEffect(l: Layout, a: Fs)
    requires l.Sound() && Slots(l, a)
    ensures var b := Graft(Graft(a, l.Staging(), TreeAt(a, l.Final())), l.Final(), TreeAt(a, l.Staging()));
      && Frame(l, a, b) && Slots(l, b)
      && TreeAt(b, l.Final()) == TreeAt(a, l.Staging()) && TreeAt(b, l.Staging()) == TreeAt(a, l.Final())
  {
    hide TreeAt, Without, Graft, Frame;
    var s, f := l.Staging(), l.Final();
    SoundApart(l);
    var m := Graft(a, s, TreeAt(a, f));
    var b := Graft(m, f, TreeAt(a, s));
    WithoutGraft(a, s, TreeAt(a, f));
    WithoutGraft(m, f, TreeAt(a, s));
    FrameFromAgreement(l, a, m, s);
    FrameFromAgreement(l, m, b, f);
    FrameTrans(l, a, m, b);
    TreeAtGraft(m, f, TreeAt(a, s));
    TreeAtGraftApart(m, f, TreeAt(a, s), s);
    TreeAtGraft(a, s, TreeAt(a, f));
  }

  /** `rename` of the staging entry onto the published path. */
  lemma RenameEffect(l: Layout, a: Fs)
    requires l.Sound() && Slots(l, a)
    ensures var b := Graft(Without(a, l.Staging()), l.Final(), TreeAt(a, l.Staging()));
      && Frame(l, a, b) && Slots(l, b)
      && TreeAt(b, l.Final()) == TreeAt(a, l.Staging()) && TreeAt(b, l.Staging()) == map[]
  {
    hide TreeAt, Without, Graft, Frame;
    var s, f := l.Staging(), l.Final();
    SoundApart(l);
    var m := Without(a, s);
    var b := Graft(m, f, TreeAt(a, s));
    WithoutTwice(a, s);
    WithoutGraft(m, f, TreeAt(a, s));
    FrameFromAgreement(l, a, m, s);
    FrameFromAgreement(l, m, b, f);
    FrameTrans(l, a, m, b);
    TreeAtGraft(m, f, TreeAt(a, s));
    TreeAtGraftApart(m, f, TreeAt(a, s), s);
    RemovedIsAbsent(a, s);
  }

  /** Creating ancestors of the home or of the staging area. */
  lemma MkdirEffect(l: Layout, a: Fs, b: Fs, p: Path)
    requires l.Sound() && Slots(l, a) && MkdirsOf(a, b, p) && (p == l.home || p == l.stagingRoot)
    ensures Frame(l, a, b) && Slots(l, b)
    ensures TreeAt(b, l.Final()) == TreeAt(a, l.Final()) && TreeAt(b, l.Staging()) == TreeAt(a, l.Staging())
  {
    hide TreeAt, Without;
    SoundApart(l);
    AncestorsElsewhere(l, p);
    MkdirKeepsTree(a, b, p, l.Final());
    MkdirKeepsTree(a, b, p, l.Staging());
  }

  lemma AncestorsElsewhere(l: Layout, p: Path)
    requires l.Sound() && (p == l.home || p == l.stagingRoot)
    ensures !(l.Final() <= p) && !(l.Staging() <= p)
  {
    SoundApart(l);
    assert |l.Final()| > |l.home| && |l.Staging()| > |l.stagingRoot|;
  }

  lemma MkdirKeepsTree(a: Fs, b: Fs, p: Path, q: Path)
    requires MkdirsOf(a, b, p) && !(q <= p)
    ensures TreeAt(b, q) == TreeAt(a, q)
  {
    hide TreeAt;
    forall r
      ensures r in TreeAt(b, q) <==> r in TreeAt(a, q)
      ensures r in TreeAt(a, q) ==> TreeAt(b, q)[r] == TreeAt(a, q)[r]
    {
      assert q <= q + r;
      PrefixTrans(q, q + r, p);
    }
  }
}
