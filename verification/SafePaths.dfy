/** Path texts of archive members and bind mounts: what the lexical checks say, and what the
    kernel makes of the same texts. */
module SafePaths {
  import opened Options
  import opened Text
  import opened FileTree

  /** `std::path::Component` on Unix. */
  datatype Component = RootDir | CurDir | ParentDir | Normal(name: string)

  function ComponentsOf(parts: seq<string>, first: bool): seq<Component> {
    if parts == [] then []
    else
      (if parts[0] == "" || (parts[0] == "." && !first) then []
       else if parts[0] == "." then [CurDir]
       else if parts[0] == ".." then [ParentDir]
       else [Normal(parts[0])])
      + ComponentsOf(parts[1..], false)
  }

  /** `Path::components`: a leading `.` is kept, other `.` and empty parts are not. */
  function Components(path: string): seq<Component> {
    (if path != "" && path[0] == '/' then [RootDir] else []) + ComponentsOf(Split(path, '/'), true)
  }

  function Normals(components: seq<Component>): seq<string> {
    if components == [] then []
    else (if components[0].Normal? then [components[0].name] else []) + Normals(components[1..])
  }

  /** The ordinary components of `Path::parent`. */
  function ParentNormals(path: string): seq<string> {
    var cs := Components(path);
    if cs == [] || cs[|cs| - 1].RootDir? then [] else Normals(cs[..|cs| - 1])
  }

  /** The names among the parts of a path. */
  function PlainParts(parts: seq<string>): seq<string> {
    if parts == [] then []
    else (if parts[0] in {"", ".", ".."} then [] else [parts[0]]) + PlainParts(parts[1..])
  }

  lemma {:induction false} NormalsOfParts(parts: seq<string>, first: bool)
    ensures Normals(ComponentsOf(parts, first)) == PlainParts(parts)
  {
    if parts != [] {
      var cs := ComponentsOf(parts, first);
      var rest := ComponentsOf(parts[1..], false);
      NormalsOfParts(parts[1..], false);
      if cs != rest { assert cs[1..] == rest; }
    }
  }

  lemma {:induction false} NormalsSnoc(cs: seq<Component>)
    requires cs != []
    ensures var last := cs[|cs| - 1];
      Normals(cs) == Normals(cs[..|cs| - 1]) + if last.Normal? then [last.name] else []
  {
    if |cs| > 1 {
      NormalsSnoc(cs[1..]);
      assert cs[1..][..|cs| - 2] == cs[..|cs| - 1][1..];
    }
  }

  lemma {:induction false} NoNamesNoParent(cs: seq<Component>)
    requires forall i | 0 <= i < |cs| :: cs[i].CurDir? || cs[i].Normal?
    requires forall i | 1 <= i < |cs| :: cs[i].Normal?
    ensures Normals(cs) == [] ==> |cs| <= 1
    ensures Normals(cs) != [] ==> cs[|cs| - 1].Normal?
  {
    if cs != [] {
      NormalsSnoc(cs);
      assert |cs| == 1 ==> cs[..0] == [] && Normals([]) == [];
    }
  }

  lemma {:induction false} PlainComponentsOf(parts: seq<string>, first: bool)
    requires ".." !in parts
    ensures forall i | 0 <= i < |ComponentsOf(parts, first)| :: ComponentsOf(parts, first)[i].CurDir? || ComponentsOf(parts, first)[i].Normal?
    ensures forall i | 0 <= i < |ComponentsOf(parts, first)| && (i > 0 || !first) :: ComponentsOf(parts, first)[i].Normal?
  {
    if parts != [] {
      assert parts[0] in parts && ".." !in parts[1..];
      PlainComponentsOf(parts[1..], false);
    }
  }

  /** The directory of an accepted member, by name: all names of its path but the last, however many `.`
      and slashes stand between them. */
  lemma ParentIsAllButLast(path: string)
    requires IsSafeRelativePath(path)
    ensures var names := PlainParts(Split(path, '/'));
      ParentNormals(path) == if names == [] then [] else names[..|names| - 1]
  {
    hide Split, ComponentsOf, PlainParts, Normals;
    var parts := Split(path, '/');
    var cs := ComponentsOf(parts, true);
    assert Components(path) == cs;
    NormalsOfParts(parts, true);
    PlainComponentsOf(parts, true);
    LastNameDropped(cs);
  }

  lemma LastNameDropped(cs: seq<Component>)
    requires forall i | 0 <= i < |cs| :: cs[i].CurDir? || cs[i].Normal?
    requires forall i | 1 <= i < |cs| :: cs[i].Normal?
    ensures cs != [] ==> Normals(cs[..|cs| - 1]) == if Normals(cs) == [] then [] else Normals(cs)[..|Normals(cs)| - 1]
    ensures cs == [] ==> Normals(cs) == []
  {
    NoNamesNoParent(cs);
    if cs != [] {
      NormalsSnoc(cs);
      assert |cs| == 1 ==> Normals(cs[..0]) == [];
    }
  }

  // ---------- Lexical link targets -------------------------------------------

  /** What one part of a link target does to the depth. */
  function Step(part: string): int {
    if part == "" || part == "." then 0 else if part == ".." then -1 else 1
  }

  function Net(parts: seq<string>): int {
    if parts == [] then 0 else Net(parts[..|parts| - 1]) + Step(parts[|parts| - 1])
  }

  /** No prefix of the walk leaves the tree. */
  predicate StaysInside(depth: nat, parts: seq<string>) {
    forall n | 0 <= n <= |parts| :: depth + Net(parts[..n]) >= 0
  }

  /** Where the walk ends, as names below the root. */
  function WalkEnd(stack: seq<string>, parts: seq<string>): seq<string>
    decreases |parts|
  {
    if parts == [] then stack
    else
      WalkEnd(if Step(parts[0]) == 1 then stack + [parts[0]]
              else if Step(parts[0]) == 0 || stack == [] then stack
              else stack[..|stack| - 1],
              parts[1..])
  }

  /** `is_safe_resolved_link`. */
  method IsSafeResolvedLink(linkPath: string, target: string) returns (safe: bool, ghost end: seq<string>)
    ensures safe <==> target != "" && StaysInside(|ParentNormals(linkPath)|, Split(target, '/'))
    ensures safe ==> end == WalkEnd(ParentNormals(linkPath), Split(target, '/'))
  {
    hide Split, ParentNormals;
    if target == "" {
      return false, [];
    }
    var start := ParentNormals(linkPath);
    var parts := Split(target, '/');
    var components := start;
    for i := 0 to |parts|
      invariant |components| == |start| + Net(parts[..i])
      invariant forall n | 0 <= n <= i :: |start| + Net(parts[..n]) >= 0
      invariant WalkEnd(components, parts[i..]) == WalkEnd(start, parts)
    {
      var part := parts[i];
      assert parts[..i + 1][..i] == parts[..i];
      assert parts[i..][1..] == parts[i + 1..];
      if part == ".." {
        if components == [] {
          assert |start| + Net(parts[..i + 1]) < 0;
          return false, [];
        }
        components := components[..|components| - 1];
      } else if part != "" && part != "." {
        components := components + [part];
      }
    }
    assert parts[|parts|..] == [];
    return true, components;
  }

  // ---------- What the kernel does -------------------------------------------

  const MAX_SYMLINKS: nat := 40

  /** Kernel path walk from directory `at`, following symbolic links; None on any error. */
  function Resolve(fs: Fs, at: Path, parts: seq<string>, links: nat): Option<Path>
    decreases links, |parts|
  {
    if parts == [] then Some(at)
    else if parts[0] == "" || parts[0] == "." then Resolve(fs, at, parts[1..], links)
    else if parts[0] == ".." then
      Resolve(fs, if at == [] then [] else at[..|at| - 1], parts[1..], links)
    else
      var next := at + [parts[0]];
      if next !in fs then None
      else
        match fs[next]
        case Dir(_) => Resolve(fs, next, parts[1..], links)
        case File(_, _) => if parts[1..] == [] then Some(next) else None
        case Link(target) =>
          if links == 0 then None
          else Resolve(fs, if target != "" && target[0] == '/' then [] else at,
                       Split(target, '/') + parts[1..], links - 1)
  }

  /** Every name the walk enters is a real directory; only the very last may be a file. */
  predicate RealWalk(fs: Fs, root: Path, stack: seq<string>, parts: seq<string>)
    decreases |parts|
  {
    parts != [] ==>
      if Step(parts[0]) == 1 then
        var next := root + (stack + [parts[0]]);
        && next in fs && (fs[next].Dir? || (fs[next].File? && parts[1..] == []))
        && RealWalk(fs, root, stack + [parts[0]], parts[1..])
      else if Step(parts[0]) == 0 || stack == [] then RealWalk(fs, root, stack, parts[1..])
      else RealWalk(fs, root, stack[..|stack| - 1], parts[1..])
  }

  /** What stands at the `i`th name down is a real directory, or a file at the end. */
  predicate StandsDown(fs: Fs, root: Path, stack: seq<string>, names: seq<string>, i: nat)
    requires i < |names|
  {
    var p := root + (stack + names[..i + 1]);
    p in fs && (fs[p].Dir? || (fs[p].File? && i == |names| - 1))
  }

  /** A walk down names, through real directories to a real directory or a file, is one. */
  lemma {:induction false} DownIsReal(fs: Fs, root: Path, stack: seq<string>, names: seq<string>)
    requires forall i | 0 <= i < |names| :: names[i] != "" && names[i] != "." && names[i] != ".."
    requires forall i | 0 <= i < |names| :: StandsDown(fs, root, stack, names, i)
    ensures RealWalk(fs, root, stack, names)
    decreases |names|
  {
    if names != [] {
      var down, rest := stack + [names[0]], names[1..];
      assert StandsDown(fs, root, stack, names, 0) && stack + names[..1] == down;
      forall i | 0 <= i < |rest|
        ensures StandsDown(fs, root, down, rest, i)
      {
        assert StandsDown(fs, root, stack, names, i + 1);
        assert down + rest[..i + 1] == stack + names[..i + 2];
      }
      DownIsReal(fs, root, down, rest);
    }
  }

  /** ... and so is one that then goes up and down again the same way. */
  lemma {:induction false} UpIsReal(fs: Fs, root: Path, stack: seq<string>, rest: seq<string>)
    requires stack != [] && RealWalk(fs, root, stack[..|stack| - 1], rest)
    ensures RealWalk(fs, root, stack, [".."] + rest)
  {
    assert ([".."] + rest)[1..] == rest;
  }

  lemma {:induction false} NetCons(parts: seq<string>, n: nat)
    requires parts != [] && n <= |parts[1..]|
    ensures Net(parts[..n + 1]) == Step(parts[0]) + Net(parts[1..][..n])
  {
    if n == 0 {
      assert parts[..1][..0] == [];
      assert parts[1..][..0] == [];
    } else {
      assert parts[..n + 1][..n] == parts[..n];
      assert parts[1..][..n][..n - 1] == parts[1..][..n - 1];
      NetCons(parts, n - 1);
    }
  }

  lemma StaysInsideTail(depth: nat, parts: seq<string>)
    requires parts != [] && StaysInside(depth, parts)
    ensures depth + Step(parts[0]) >= 0 && StaysInside(depth + Step(parts[0]), parts[1..])
  {
    forall n | 0 <= n <= |parts[1..]|
      ensures depth + Step(parts[0]) + Net(parts[1..][..n]) >= 0
    {
      NetCons(parts, n);
      assert depth + Net(parts[..n + 1]) >= 0;
    }
    assert parts[1..][..0] == [];
  }

  /** Through real directories, a walk that stays inside lexically ends physically inside the root,
      at the very place the lexical walk names. */
  lemma {:induction false} LexicalIsPhysical(fs: Fs, root: Path, stack: seq<string>, parts: seq<string>, links: nat)
    requires StaysInside(|stack|, parts) && RealWalk(fs, root, stack, parts)
    ensures Resolve(fs, root + stack, parts, links) == Some(root + WalkEnd(stack, parts))
    decreases |parts|
  {
    if parts != [] {
      StaysInsideTail(|stack|, parts);
      if Step(parts[0]) == 1 {
        assert root + stack + [parts[0]] == root + (stack + [parts[0]]);
        LexicalIsPhysical(fs, root, stack + [parts[0]], parts[1..], links);
      } else if Step(parts[0]) == 0 {
        LexicalIsPhysical(fs, root, stack, parts[1..], links);
      } else {
        assert (root + stack)[..|root + stack| - 1] == root + stack[..|stack| - 1];
        LexicalIsPhysical(fs, root, stack[..|stack| - 1], parts[1..], links);
      }
    }
  }

  /** Through real directories, a walk that does not stay inside really leaves the root. */
  lemma {:induction false} UnsafeLinkEscapes(fs: Fs, root: Path, stack: seq<string>, parts: seq<string>, links: nat)
      returns (n: nat)
    requires root != [] && !StaysInside(|stack|, parts) && RealWalk(fs, root, stack, parts)
    ensures n <= |parts| && Resolve(fs, root + stack, parts[..n], links) == Some(root[..|root| - 1])
    decreases |parts|
  {
    var bad :| 0 <= bad <= |parts| && |stack| + Net(parts[..bad]) < 0;
    assert parts[..0] == [];
    assert bad > 0;
    NetCons(parts, bad - 1);
    if Step(parts[0]) == -1 && stack == [] {
      n := 1;
      assert parts[..1][1..] == [] && root + stack == root;
    } else {
      var next := if Step(parts[0]) == 1 then stack + [parts[0]]
                  else if Step(parts[0]) == 0 then stack else stack[..|stack| - 1];
      assert |next| == |stack| + Step(parts[0]);
      assert |next| + Net(parts[1..][..bad - 1]) < 0;
      var m := UnsafeLinkEscapes(fs, root, next, parts[1..], links);
      n := m + 1;
      assert parts[..n][0] == parts[0] && parts[..n][1..] == parts[1..][..m];
      if Step(parts[0]) == 1 {
        assert root + stack + [parts[0]] == root + next;
        assert parts[1..][..0] == [];
        FileEndsWalk(fs, root, stack, parts, m);
      } else if Step(parts[0]) == -1 {
        assert (root + stack)[..|root + stack| - 1] == root + next;
      }
    }
  }

  lemma FileEndsWalk(fs: Fs, root: Path, stack: seq<string>, parts: seq<string>, m: nat)
    requires parts != [] && m <= |parts| - 1 && Step(parts[0]) == 1 && RealWalk(fs, root, stack, parts)
    requires m > 0
    ensures fs[root + (stack + [parts[0]])].Dir?
  {}

  // ---------- Member filter --------------------------------------------------

  datatype Kind =
    | Regular | Directory | Symlink | HardLink
    | Char | Block | Fifo
    | PaxGlobal | PaxLocal | GnuLongName | GnuLongLink
    | OtherKind

  datatype Member = Member(kind: Kind, path: string, link: Option<string>)

  datatype Decision = Allow | Skip | Reject

  predicate IsExtension(k: Kind) {
    k.PaxGlobal? || k.PaxLocal? || k.GnuLongName? || k.GnuLongLink?
  }

  /** `is_safe_relative_path`. */
  predicate IsSafeRelativePath(path: string) {
    path != "" && path[0] != '/' && ".." !in Split(path, '/')
  }

  predicate IsSafeLink(m: Member) {
    && m.link.Some? && m.link.value != "" && m.link.value[0] != '/'
    && StaysInside(|ParentNormals(m.path)|, Split(m.link.value, '/'))
  }

  /** `safe_member_filter`. */
  method SafeMemberFilter(m: Member) returns (d: Decision)
    ensures d == Skip <==> m.kind in {PaxGlobal, PaxLocal, GnuLongName, GnuLongLink}
    ensures d == Allow <==>
      && m.kind !in {PaxGlobal, PaxLocal, GnuLongName, GnuLongLink} && !m.kind.Char? && !m.kind.Block? && !m.kind.Fifo?
      && m.path != "" && m.path[0] != '/' && ".." !in Split(m.path, '/')
      && (m.kind.Symlink? || m.kind.HardLink? ==> IsSafeLink(m))
  {
    if IsExtension(m.kind) {
      return Skip;
    }
    if m.kind.Char? || m.kind.Block? || m.kind.Fifo? || !IsSafeRelativePath(m.path) {
      return Reject;
    }
    if m.kind.Symlink? || m.kind.HardLink? {
      if m.link.None? || (m.link.value != "" && m.link.value[0] == '/') {
        return Reject;
      }
      var safe, _ := IsSafeResolvedLink(m.path, m.link.value);
      if !safe {
        return Reject;
      }
    }
    return Allow;
  }

  lemma {:induction false} NoParentDirs(parts: seq<string>, first: bool)
    requires ".." !in parts
    ensures ParentDir !in ComponentsOf(parts, first) && RootDir !in ComponentsOf(parts, first)
  {
    if parts != [] {
      assert parts[0] in parts && ".." !in parts[1..];
      NoParentDirs(parts[1..], false);
    }
  }

  /** An accepted member path has no `..` and no root component left in it. */
  lemma SafePathHasNoParent(path: string)
    requires IsSafeRelativePath(path)
    ensures ParentDir !in Components(path) && RootDir !in Components(path)
  {
    NoParentDirs(Split(path, '/'), true);
    assert Components(path) == ComponentsOf(Split(path, '/'), true);
  }

  // ---------- Links through links ----------------------------------------------

  lemma {:induction false} RealWalkPrefix(fs: Fs, root: Path, stack: seq<string>, parts: seq<string>, n: nat)
    requires RealWalk(fs, root, stack, parts) && n <= |parts|
    ensures RealWalk(fs, root, stack, parts[..n])
    decreases n
  {
    if n > 0 {
      assert parts[..n][0] == parts[0] && parts[..n][1..] == parts[1..][..n - 1];
      var next := if Step(parts[0]) == 1 then stack + [parts[0]]
                  else if Step(parts[0]) == 0 || stack == [] then stack else stack[..|stack| - 1];
      RealWalkPrefix(fs, root, next, parts[1..], n - 1);
    }
  }

  lemma StaysInsidePrefix(depth: nat, parts: seq<string>, n: nat)
    requires StaysInside(depth, parts) && n <= |parts|
    ensures StaysInside(depth, parts[..n])
  {
    forall k | 0 <= k <= n
      ensures depth + Net(parts[..n][..k]) >= 0
    {
      assert parts[..n][..k] == parts[..k];
    }
  }

  /** Over real directories, a link's target stays under the root in every step exactly when it does so
      lexically from the directory the link is really in. */
  lemma InsideExactly(fs: Fs, root: Path, stack: seq<string>, parts: seq<string>, links: nat)
    requires root != [] && RealWalk(fs, root, stack, parts)
    ensures StaysInside(|stack|, parts) <==>
      forall n | 0 <= n <= |parts| ::
        var place := Resolve(fs, root + stack, parts[..n], links); place.Some? && root <= place.value
  {
    if StaysInside(|stack|, parts) {
      forall n | 0 <= n <= |parts|
        ensures var place := Resolve(fs, root + stack, parts[..n], links); place.Some? && root <= place.value
      {
        StaysInsidePrefix(|stack|, parts, n);
        RealWalkPrefix(fs, root, stack, parts, n);
        LexicalIsPhysical(fs, root, stack, parts[..n], links);
      }
    } else {
      var n := UnsafeLinkEscapes(fs, root, stack, parts, links);
    }
  }

  /** So an accepted link is harmless when its directory is really as deep as its path says. */
  lemma AcceptedLinkInside(fs: Fs, root: Path, stack: seq<string>, m: Member, links: nat)
    requires root != [] && IsSafeLink(m) && |stack| >= |ParentNormals(m.path)|
    requires RealWalk(fs, root, stack, Split(m.link.value, '/'))
    ensures var place := Resolve(fs, root + stack, Split(m.link.value, '/'), links);
      place.Some? && root <= place.value
  {
    hide Split, ParentNormals;
    var parts := Split(m.link.value, '/');
    assert forall n | 0 <= n <= |parts| :: |ParentNormals(m.path)| + Net(parts[..n]) >= 0;
    InsideExactly(fs, root, stack, parts, links);
    assert parts[..|parts|] == parts;
  }

  /** Two links, the second placed through the first. */
  const NEAR: Member := Member(Symlink, "d/e/f", Some("../.."))
  const FAR: Member := Member(Symlink, "d/e/f/g/h", Some("../../../.."))

  /** The directories and links of a tree that holds both. */
  function TwoLinks(root: Path): Fs {
    map[
      root + ["d"] := Dir(0), root + ["d"] + ["e"] := Dir(0), root + ["g"] := Dir(0),
      root + ["d"] + ["e"] + ["f"] := Link("../.."),
      root + ["g"] + ["h"] := Link("../../../..")]
  }

  predicate Upwards(parts: seq<string>) {
    forall i | 0 <= i < |parts| :: parts[i] == ".."
  }

  lemma {:induction false} NetUpwards(parts: seq<string>, n: nat)
    requires Upwards(parts) && n <= |parts|
    ensures Net(parts[..n]) + n == 0
  {
    if n > 0 {
      NetUpwards(parts, n - 1);
      assert parts[..n][..n - 1] == parts[..n - 1];
    }
  }

  /** As many steps up as there are names stay inside. */
  lemma UpwardsInside(parts: seq<string>)
    requires Upwards(parts)
    ensures StaysInside(|parts|, parts)
  {
    forall n | 0 <= n <= |parts|
      ensures Net(parts[..n]) + n == 0
    {
      NetUpwards(parts, n);
    }
  }

  const TWO_UP := ["..", ".."]
  const FOUR_UP := ["..", "..", "..", ".."]

  lemma Targets()
    ensures Split("../..", '/') == TWO_UP && Split("../../../..", '/') == FOUR_UP
  {
    hide Split;
    var three := ["..", "..", ".."];
    assert FOUR_UP[1..] == three && three[1..] == TWO_UP && TWO_UP[1..] == [".."];
    assert Join([".."], '/') == ".." && Join(TWO_UP, '/') == "../..";
    assert Join(three, '/') == "../../..";
    assert Join(FOUR_UP, '/') == "../../../..";
    SplitJoin(TWO_UP, '/');
    SplitJoin(FOUR_UP, '/');
  }

  lemma {:induction false} PlainComponents(parts: seq<string>, first: bool)
    requires forall i | 0 <= i < |parts| :: Step(parts[i]) == 1
    ensures var cs := ComponentsOf(parts, first); |cs| == |parts| && forall i | 0 <= i < |cs| :: cs[i].Normal?
  {
    if parts != [] { PlainComponents(parts[1..], false); }
  }

  lemma {:induction false} AllNormals(cs: seq<Component>)
    requires forall i | 0 <= i < |cs| :: cs[i].Normal?
    ensures |Normals(cs)| == |cs|
  {
    if cs != [] { AllNormals(cs[1..]); }
  }

  /** A path of names has all but the last of them above it. */
  lemma DepthOfNames(path: string)
    requires path != "" && path[0] != '/' && forall i | 0 <= i < |Split(path, '/')| :: Step(Split(path, '/')[i]) == 1
    ensures |ParentNormals(path)| == |Split(path, '/')| - 1
  {
    hide Split;
    PlainComponents(Split(path, '/'), true);
    var cs := Components(path);
    assert cs == ComponentsOf(Split(path, '/'), true);
    AllNormals(cs[..|cs| - 1]);
  }

  lemma LinkPaths()
    ensures IsSafeRelativePath(NEAR.path) && |ParentNormals(NEAR.path)| == 2
    ensures IsSafeRelativePath(FAR.path) && |ParentNormals(FAR.path)| == 4
  {
    hide Split, ParentNormals;
    var near, far := ["d", "e", "f"], ["d", "e", "f", "g", "h"];
    SplitJoin(near, '/');
    SplitJoin(far, '/');
    assert near[1..] == ["e", "f"] && ["e", "f"][1..] == ["f"];
    assert Join(["e", "f"], '/') == "e/f" && Join(near, '/') == "d/e/f";
    assert far[1..] == ["e", "f", "g", "h"] && ["e", "f", "g", "h"][1..] == ["f", "g", "h"];
    assert ["f", "g", "h"][1..] == ["g", "h"] && ["g", "h"][1..] == ["h"];
    assert Join(["g", "h"], '/') == "g/h" && Join(["f", "g", "h"], '/') == "f/g/h";
    assert Join(["e", "f", "g", "h"], '/') == "e/f/g/h" && Join(far, '/') == "d/e/f/g/h";
    DepthOfNames(NEAR.path);
    DepthOfNames(FAR.path);
  }

  lemma LinksAreSafe()
    ensures IsSafeRelativePath(NEAR.path) && IsSafeLink(NEAR) && IsSafeRelativePath(FAR.path) && IsSafeLink(FAR)
  {
    hide StaysInside, IsSafeRelativePath, ParentNormals, Split;
    LinkPaths();
    Targets();
    UpwardsInside(TWO_UP);
    UpwardsInside(FOUR_UP);
  }

  /** Steps up from any directory go up, and stop at the top. */
  lemma {:induction false} UpAndOut(fs: Fs, at: Path, parts: seq<string>, rest: seq<string>, links: nat)
    requires Upwards(parts)
    ensures var top := if |parts| <= |at| then at[..|at| - |parts|] else [];
      Resolve(fs, at, parts + rest, links) == Resolve(fs, top, rest, links)
    decreases |parts|
  {
    if parts == [] {
      assert parts + rest == rest && at[..|at|] == at;
    } else {
      assert (parts + rest)[0] == ".." && (parts + rest)[1..] == parts[1..] + rest;
      var up := if at == [] then [] else at[..|at| - 1];
      UpAndOut(fs, up, parts[1..], rest, links);
      assert |parts| <= |at| ==> up[..|up| - |parts[1..]|] == at[..|at| - |parts|];
    }
  }

  lemma IntoDir(fs: Fs, at: Path, name: string, rest: seq<string>, links: nat)
    requires Step(name) == 1 && at + [name] in fs && fs[at + [name]].Dir?
    ensures Resolve(fs, at, [name] + rest, links) == Resolve(fs, at + [name], rest, links)
  {
    assert ([name] + rest)[1..] == rest;
  }

  lemma ThroughLink(fs: Fs, at: Path, name: string, target: string, rest: seq<string>, links: nat)
    requires Step(name) == 1 && at + [name] in fs && fs[at + [name]] == Link(target)
    requires target != "" && target[0] != '/' && links > 0
    ensures Resolve(fs, at, [name] + rest, links) == Resolve(fs, at, Split(target, '/') + rest, links - 1)
  {
    hide Split;
    assert ([name] + rest)[1..] == rest;
  }

  lemma TwoLinksHolds(root: Path)
    ensures var fs, d, e, g := TwoLinks(root), root + ["d"], root + ["d"] + ["e"], root + ["g"];
      && d in fs && fs[d] == Dir(0) && e in fs && fs[e] == Dir(0) && g in fs && fs[g] == Dir(0)
      && e + ["f"] in fs && fs[e + ["f"]] == Link("../..") && g + ["h"] in fs && fs[g + ["h"]] == Link("../../../..")
  {
    var d, e, g := root + ["d"], root + ["d"] + ["e"], root + ["g"];
    assert d[|root|] == e[|root|] == "d" && (e + ["f"])[|root|] == "d" && g[|root|] == (g + ["h"])[|root|] == "g";
  }

  /** Through the first link the second one's directory is the root's `g`. */
  lemma ThroughTheFirst(root: Path, rest: seq<string>)
    ensures Resolve(TwoLinks(root), root, ["d", "e"], MAX_SYMLINKS) == Some(root + ["d"] + ["e"])
    ensures Resolve(TwoLinks(root), root, ["d", "e", "f", "g"] + rest, MAX_SYMLINKS)
      == Resolve(TwoLinks(root), root + ["g"], rest, MAX_SYMLINKS - 1)
  {
    hide Resolve, Split, TwoLinks;
    TwoLinksHolds(root);
    var fs, d, e := TwoLinks(root), root + ["d"], root + ["d"] + ["e"];
    var links: nat := MAX_SYMLINKS;
    Arrived(fs, e, links);
    IntoDir(fs, d, "e", [], links);
    IntoDir(fs, root, "d", ["e"], links);
    assert ["d"] + ["e"] == ["d", "e"] && ["e"] + [] == ["e"];
    IntoDir(fs, root, "d", ["e", "f", "g"] + rest, links);
    IntoDir(fs, d, "e", ["f", "g"] + rest, links);
    ThroughLink(fs, e, "f", "../..", ["g"] + rest, links);
    Targets();
    UpAndOut(fs, e, TWO_UP, ["g"] + rest, links - 1);
    assert e[..|e| - 2] == root;
    IntoDir(fs, root, "g", rest, links - 1);
    assert ["d"] + (["e", "f", "g"] + rest) == ["d", "e", "f", "g"] + rest;
    assert ["e"] + (["f", "g"] + rest) == ["e", "f", "g"] + rest;
    assert ["f"] + (["g"] + rest) == ["f", "g"] + rest;
  }

  lemma Arrived(fs: Fs, at: Path, links: nat)
    ensures Resolve(fs, at, [], links) == Some(at)
  {}

  /** Both links are accepted and both are made in directories under the root, yet the second one leads
      out of it. */
  lemma LinksEscapeTogether(root: Path)
    requires root != []
    ensures IsSafeRelativePath(NEAR.path) && IsSafeLink(NEAR) && IsSafeRelativePath(FAR.path) && IsSafeLink(FAR)
    ensures var fs := TwoLinks(root);
      && Resolve(fs, root, ["d", "e"], MAX_SYMLINKS) == Some(root + ["d"] + ["e"])
      && Resolve(fs, root, ["d", "e", "f", "g"], MAX_SYMLINKS) == Some(root + ["g"])
      && var place := Resolve(fs, root, ["d", "e", "f", "g", "h"], MAX_SYMLINKS);
      place.Some? && !(root <= place.value)
  {
    hide IsSafeRelativePath, IsSafeLink, Split, Resolve, TwoLinks;
    TwoLinksHolds(root);
    LinksAreSafe();
    ThroughTheFirst(root, []);
    ThroughTheFirst(root, ["h"]);
    assert ["d", "e", "f", "g"] + [] == ["d", "e", "f", "g"] && ["h"] + [] == ["h"];
    assert ["d", "e", "f", "g"] + ["h"] == ["d", "e", "f", "g", "h"];
    var fs, g := TwoLinks(root), root + ["g"];
    var links: nat := MAX_SYMLINKS - 1;
    Arrived(fs, g, links);
    ThroughLink(fs, g, "h", "../../../..", [], links);
    Targets();
    UpAndOut(fs, g, FOUR_UP, [], links - 1);
    Arrived(fs, if 4 <= |g| then g[..|g| - 4] else [], links - 1);
  }

  // ---------- Bind mounts of the root ----------------------------------------

  /** Saturating normalisation: `..` pops, and at the root stays there. */
  function Normalize(stack: seq<string>, components: seq<Component>): seq<string>
    decreases |components|
  {
    if components == [] then stack
    else
      match components[0]
      case Normal(n) => Normalize(stack + [n], components[1..])
      case ParentDir => Normalize(if stack == [] then [] else stack[..|stack| - 1], components[1..])
      case _ => Normalize(stack, components[1..])
  }

  /** `binds_filesystem_root`: the depth counter reaches zero exactly when nothing is left. */
  method BindsFilesystemRoot(path: string) returns (root: bool)
    ensures root <==> Normalize([], Components(path)) == []
  {
    var components := Components(path);
    var depth := 0;
    ghost var stack: seq<string> := [];
    assert components[0..] == components;
    for i := 0 to |components|
      invariant depth == |stack|
      invariant Normalize(stack, components[i..]) == Normalize([], components)
    {
      assert components[i..][1..] == components[i + 1..];
      match components[i] {
        case ParentDir =>
          if depth > 0 {
            depth := depth - 1;
            stack := stack[..|stack| - 1];
          }
        case Normal(n) =>
          depth := depth + 1;
          stack := stack + [n];
        case _ =>
      }
    }
    assert components[|components|..] == [];
    return depth == 0;
  }

  /** On real directories the kernel lands at the root for exactly these absolute paths. */
  lemma {:induction false} NormalizeIsPhysical(fs: Fs, stack: seq<string>, parts: seq<string>, links: nat)
    requires RealWalk(fs, [], stack, parts)
    ensures Resolve(fs, stack, parts, links) == Some(Normalize(stack, ComponentsOf(parts, false)))
    decreases |parts|
  {
    if parts != [] {
      var rest := ComponentsOf(parts[1..], false);
      assert [] + (stack + [parts[0]]) == stack + [parts[0]];
      if Step(parts[0]) == 1 {
        NormalizeIsPhysical(fs, stack + [parts[0]], parts[1..], links);
        assert ([Normal(parts[0])] + rest)[1..] == rest;
      } else if parts[0] == ".." {
        NormalizeIsPhysical(fs, if stack == [] then [] else stack[..|stack| - 1], parts[1..], links);
        assert ([ParentDir] + rest)[1..] == rest;
      } else {
        NormalizeIsPhysical(fs, stack, parts[1..], links);
        assert [] + rest == rest;
      }
    }
  }

  /** For an absolute path over real directories: the bind target is the root exactly when the
      depth counter says so. */
  lemma BindsRootPhysically(fs: Fs, path: string, links: nat)
    requires path != "" && path[0] == '/' && RealWalk(fs, [], [], Split(path, '/'))
    ensures Normalize([], Components(path)) == [] <==> Resolve(fs, [], Split(path, '/'), links) == Some([])
  {
    var parts := Split(path, '/');
    NormalizeIsPhysical(fs, [], parts, links);
    assert parts[0] == "";
    assert ComponentsOf(parts, true) == ComponentsOf(parts, false);
    assert ([RootDir] + ComponentsOf(parts, false))[1..] == ComponentsOf(parts, false);
  }
}
