/** Pruning old `bin.<version>` trees: which survive, for every listing order, every tie in
    modification time and every failing removal. */
module Prune {
  import opened Options
  import opened Text
  import opened FileTree
  import opened DiskModel
  import opened SafePaths

  // ---------- Which trees count, and how they are ordered --------------------

  /** `bin.<suffix>`, the suffix neither empty nor `tmp`. */
  predicate VersionedName(name: Name) {
    var suffix := StripPrefix(name, "bin.");
    suffix.Some? && suffix.value != "" && suffix.value != "tmp"
  }

  /** A real directory with a versioned name. */
  predicate IsCandidate(fs: Fs, home: Path, name: Name) {
    VersionedName(name) && home + [name] in fs && fs[home + [name]].Dir?
  }

  function Candidates(fs: Fs, home: Path, names: seq<Name>): set<Name> {
    set n | n in names && IsCandidate(fs, home, n)
  }

  /** What counts is a listed real directory `bin.<suffix>`; `bin`, `bin.` and `bin.tmp` never do, nor does
      anything of another name. */
  lemma CandidatesExactly(fs: Fs, home: Path, names: seq<Name>, suffix: string)
    ensures "bin." + suffix in Candidates(fs, home, names) <==>
      && "bin." + suffix in names && home + ["bin." + suffix] in fs && fs[home + ["bin." + suffix]].Dir?
      && suffix != "" && suffix != "tmp"
    ensures forall n | n in Candidates(fs, home, names) :: |n| > 4 && n[..4] == "bin." && n != "bin.tmp"
  {
    assert ("bin." + suffix)[..4] == "bin." && ("bin." + suffix)[4..] == suffix;
    forall n | n in Candidates(fs, home, names)
      ensures |n| > 4 && n[..4] == "bin." && n != "bin.tmp"
    {
      assert n[|"bin."|..] != "tmp";
    }
  }

  function Index(names: seq<Name>, n: Name): (i: nat)
    requires n in names
    ensures i < |names| && names[i] == n
  {
    if names[0] == n then 0 else 1 + Index(names[1..], n)
  }

  type Mtimes = Name -> int

  /** Newest first; equal times in listing order. */
  predicate Newer(names: seq<Name>, mtime: Mtimes, a: Name, b: Name) {
    a in names && b in names && (mtime(a) > mtime(b) || (mtime(a) == mtime(b) && Index(names, a) < Index(names, b)))
  }

  /** The candidates that come before `c`. */
  function Ahead(candidates: set<Name>, names: seq<Name>, mtime: Mtimes, c: Name): set<Name> {
    set d | d in candidates && Newer(names, mtime, d, c)
  }

  // ---------- The stable sort -------------------------------------------------

  function Insert(sorted: seq<Name>, mtime: Mtimes, x: Name): seq<Name> {
    if sorted == [] || mtime(sorted[|sorted| - 1]) >= mtime(x) then sorted + [x]
    else Insert(sorted[..|sorted| - 1], mtime, x) + [sorted[|sorted| - 1]]
  }

  /** `sort_by(|a, b| b.1.cmp(&a.1))`. */
  function NewestFirst(v: seq<Name>, mtime: Mtimes): seq<Name> {
    if v == [] then [] else Insert(NewestFirst(v[..|v| - 1], mtime), mtime, v[|v| - 1])
  }

  predicate Ordered(names: seq<Name>, mtime: Mtimes, v: seq<Name>) {
    forall i, j | 0 <= i < j < |v| :: Newer(names, mtime, v[i], v[j])
  }

  lemma {:induction false} InsertKeepsOrder(names: seq<Name>, mtime: Mtimes, v: seq<Name>, x: Name)
    requires Ordered(names, mtime, v) && x in names
    requires forall y | y in v :: y in names && Index(names, y) < Index(names, x)
    ensures Ordered(names, mtime, Insert(v, mtime, x))
    ensures forall y :: y in Insert(v, mtime, x) <==> y in v || y == x
  {
    if v != [] && mtime(v[|v| - 1]) < mtime(x) {
      var last, rest := v[|v| - 1], v[..|v| - 1];
      InsertKeepsOrder(names, mtime, rest, x);
      var w := Insert(rest, mtime, x);
      assert v == rest + [last];
      forall y | y in w
        ensures Newer(names, mtime, y, last)
      {
        if y != x {
          var i :| 0 <= i < |rest| && rest[i] == y;
          assert Newer(names, mtime, v[i], v[|v| - 1]);
        }
      }
    } else {
      forall y | y in v
        ensures Newer(names, mtime, y, x)
      {
        var i :| 0 <= i < |v| && v[i] == y;
        assert i < |v| - 1 ==> Newer(names, mtime, v[i], v[|v| - 1]);
      }
    }
  }

  /** Sorting a part of the listing keeps its elements and puts them in newest-first order. */
  lemma {:induction false} SortOrders(names: seq<Name>, mtime: Mtimes, v: seq<Name>)
    requires forall i | 0 <= i < |v| :: v[i] in names
    requires forall i, j | 0 <= i < j < |v| :: Index(names, v[i]) < Index(names, v[j])
    ensures Ordered(names, mtime, NewestFirst(v, mtime))
    ensures forall y :: y in NewestFirst(v, mtime) <==> y in v
  {
    if v != [] {
      var rest := v[..|v| - 1];
      assert v == rest + [v[|v| - 1]];
      SortOrders(names, mtime, rest);
      InsertKeepsOrder(names, mtime, NewestFirst(rest, mtime), v[|v| - 1]);
    }
  }

  lemma NewerIsStrict(names: seq<Name>, mtime: Mtimes, a: Name, b: Name)
    ensures !(Newer(names, mtime, a, b) && Newer(names, mtime, b, a))
    ensures a == b ==> !Newer(names, mtime, a, b)
  {}

  lemma ElementsStep(v: seq<Name>, k: nat)
    requires k < |v|
    ensures Elements(v[..k + 1]) == Elements(v[..k]) + {v[k]}
  {
    assert v[..k + 1] == v[..k] + [v[k]];
  }

  lemma NoElements()
    ensures Elements([]) == {}
  {}

  lemma NotBefore(v: seq<Name>, k: nat)
    requires Distinct(v) && k < |v|
    ensures v[k] !in Elements(v[..k])
  {}

  lemma {:induction false} SizeOfDistinct(v: seq<Name>, n: nat)
    requires Distinct(v) && n <= |v|
    ensures |Elements(v[..n])| == n
  {
    hide Distinct, Elements;
    if n == 0 {
      assert Elements(v[..0]) == {} by { NoElements(); }
    } else {
      SizeOfDistinct(v, n - 1);
      ElementsStep(v, n - 1);
      NotBefore(v, n - 1);
    }
  }

  lemma OrderedIsDistinct(names: seq<Name>, mtime: Mtimes, v: seq<Name>)
    requires Ordered(names, mtime, v)
    ensures Distinct(v)
  {
    forall i, j | 0 <= i < j < |v|
      ensures v[i] != v[j]
    {
      NewerIsStrict(names, mtime, v[i], v[j]);
    }
  }

  /** The position in the sorted order is the number of candidates ahead. */
  lemma PositionIsRank(names: seq<Name>, mtime: Mtimes, v: seq<Name>, k: nat)
    requires Ordered(names, mtime, v) && k < |v|
    ensures Ahead(Elements(v), names, mtime, v[k]) == Elements(v[..k])
    ensures |Ahead(Elements(v), names, mtime, v[k])| == k
  {
    forall i, j | 0 <= i < j < |v|
      ensures v[i] != v[j]
    {
      NewerIsStrict(names, mtime, v[i], v[j]);
    }
    SizeOfDistinct(v, k);
    var a := Ahead(Elements(v), names, mtime, v[k]);
    forall x
      ensures x in a <==> x in v[..k]
    {
      if x in v {
        var i :| 0 <= i < |v| && v[i] == x;
        NewerIsStrict(names, mtime, v[i], v[k]);
        NewerIsStrict(names, mtime, v[k], v[i]);
        assert x in v[..k] <==> i < k;
      }
    }
  }

  // ---------- The link an operator may have placed ---------------------------

  function TrimSlashes(s: string): string {
    if s != "" && s[|s| - 1] == '/' then TrimSlashes(s[..|s| - 1]) else s
  }

  /** `paths_equal`. */
  predicate PathsEqual(a: string, b: string) {
    TrimSlashes(a) == TrimSlashes(b)
  }

  /** `Path::join`. */
  function JoinPath(base: string, p: string): string {
    if p != "" && p[0] == '/' then p
    else if base == "" || base[|base| - 1] == '/' then base + p
    else base + "/" + p
  }

  /** The target of `<home>/bin`, joined to the home, is textually this candidate's path. */
  predicate IsActive(fs: Fs, home: Path, homeText: string, name: Name) {
    var bin := home + ["bin"];
    bin in fs && fs[bin].Link? && PathsEqual(JoinPath(homeText, fs[bin].target), JoinPath(homeText, name))
  }

  predicate Expendable(fs: Fs, home: Path, homeText: string, names: seq<Name>, mtime: Mtimes, keep: nat, c: Name) {
    var candidates := Candidates(fs, home, names);
    c in candidates && |Ahead(candidates, names, mtime, c)| >= keep && !IsActive(fs, home, homeText, c)
  }

  /** All that may go. */
  function Doomed(fs: Fs, home: Path, homeText: string, names: seq<Name>, mtime: Mtimes, keep: nat): (doomed: set<Name>)
    ensures forall c :: c in doomed <==> Expendable(fs, home, homeText, names, mtime, keep, c)
  {
    var candidates := Candidates(fs, home, names);
    set c | c in candidates && Expendable(fs, home, homeText, names, mtime, keep, c)
  }

  // ---------- The pruner ------------------------------------------------------

  /** Nothing outside the expendable trees has changed. */
  ghost predicate OnlyExpendable(before: Fs, after: Fs, home: Path, expendable: set<Name>) {
    forall q | (forall c | c in expendable :: !(home + [c] <= q)) ::
      (q in before <==> q in after) && (q in before ==> after[q] == before[q])
  }

  function Gone(candidates: set<Name>, fs: Fs, home: Path): (gone: set<Name>)
    ensures gone <= candidates
  {
    set c | c in candidates && home + [c] !in fs
  }

  /** The candidates in listing order. */
  function Listed(fs: Fs, home: Path, names: seq<Name>): seq<Name> {
    if names == [] then []
    else
      var last := names[|names| - 1];
      Listed(fs, home, names[..|names| - 1]) + if IsCandidate(fs, home, last) then [last] else []
  }

  lemma {:induction false} ListedInOrder(fs: Fs, home: Path, names: seq<Name>, n: nat)
    requires Distinct(names) && n <= |names|
    ensures var v := Listed(fs, home, names[..n]);
      && (forall x :: x in v <==> x in names[..n] && IsCandidate(fs, home, x))
      && (forall i | 0 <= i < |v| :: v[i] in names && Index(names, v[i]) < n)
      && (forall i, j | 0 <= i < j < |v| :: Index(names, v[i]) < Index(names, v[j]))
  {
    hide IsCandidate, Index, Distinct, Listed;
    if n == 0 {
      assert Listed(fs, home, names[..0]) == [] by { NothingListed(fs, home); }
    } else {
      ListedInOrder(fs, home, names, n - 1);
      ListedSnoc(fs, home, names, n - 1);
      IndexAt(names, n - 1);
      assert names[..n] == names[..n - 1] + [names[n - 1]];
    }
  }

  lemma NothingListed(fs: Fs, home: Path)
    ensures Listed(fs, home, []) == []
  {}

  lemma ListedSnoc(fs: Fs, home: Path, names: seq<Name>, n: nat)
    requires n < |names|
    ensures Listed(fs, home, names[..n + 1])
      == Listed(fs, home, names[..n]) + if IsCandidate(fs, home, names[n]) then [names[n]] else []
  {
    hide IsCandidate;
    assert names[..n + 1][..n] == names[..n];
  }

  lemma IndexAt(names: seq<Name>, k: nat)
    requires Distinct(names) && k < |names|
    ensures Index(names, names[k]) == k
  {
    assert names[Index(names, names[k])] == names[k];
  }

  /** The candidates, newest first. */
  function Ranking(fs: Fs, home: Path, names: seq<Name>, mtime: Mtimes): seq<Name> {
    NewestFirst(Listed(fs, home, names), mtime)
  }

  lemma RankingIsRanked(fs: Fs, home: Path, names: seq<Name>, mtime: Mtimes)
    requires Distinct(names)
    ensures var v := Ranking(fs, home, names, mtime);
      && Elements(v) == Candidates(fs, home, names) && Ordered(names, mtime, v) && Distinct(v)
      && forall k | 0 <= k < |v| :: |Ahead(Candidates(fs, home, names), names, mtime, v[k])| == k
  {
    var listed, v := Listed(fs, home, names), Ranking(fs, home, names, mtime);
    ListedInOrder(fs, home, names, |names|);
    assert names[..|names|] == names;
    SortOrders(names, mtime, listed);
    assert Elements(v) == Candidates(fs, home, names);
    OrderedIsDistinct(names, mtime, v);
    forall k | 0 <= k < |v|
      ensures |Ahead(Candidates(fs, home, names), names, mtime, v[k])| == k
    {
      PositionIsRank(names, mtime, v, k);
    }
  }

  /** The listing loop. */
  method CollectCandidates(fs: Fs, home: Path, names: seq<Name>) returns (v: seq<Name>)
    ensures v == Listed(fs, home, names)
  {
    v := [];
    for k := 0 to |names|
      invariant v == Listed(fs, home, names[..k])
    {
      assert names[..k + 1][..k] == names[..k];
      if IsCandidate(fs, home, names[k]) {
        v := v + [names[k]];
      }
    }
    assert names[..|names|] == names;
  }

  /** The first `k` candidates are dealt with; `clean` if no removal has failed. */
  ghost predicate Pruning(fs0: Fs, fs: Fs, home: Path, v: seq<Name>, expendable: set<Name>, k: nat, pruned: nat, clean: bool)
    requires k <= |v|
  {
    && OnlyExpendable(fs0, fs, home, expendable)
    && Gone(Elements(v), fs, home) <= expendable * Elements(v[..k])
    && pruned == |Gone(Elements(v), fs, home)|
    && (forall c | c in Gone(Elements(v), fs, home) :: TreeAt(fs, home + [c]) == map[])
    && (forall j | k <= j < |v| :: TreeAt(fs, home + [v[j]]) == TreeAt(fs0, home + [v[j]]))
    && (clean ==> expendable * Elements(v[..k]) <= Gone(Elements(v), fs, home))
  }

  lemma StaysOnlyExpendable(fs0: Fs, fs: Fs, h: Fs, home: Path, expendable: set<Name>, c: Name)
    requires OnlyExpendable(fs0, fs, home, expendable) && c in expendable
    requires Without(h, home + [c]) == Without(fs, home + [c])
    ensures OnlyExpendable(fs0, h, home, expendable)
  {
    forall q | forall d | d in expendable :: !(home + [d] <= q)
      ensures q in fs0 <==> q in h
      ensures q in fs0 ==> h[q] == fs0[q]
    {
      assert !(home + [c] <= q);
      assert q in Without(h, home + [c]) <==> q in Without(fs, home + [c]);
      assert q in Without(h, home + [c]) ==> Without(h, home + [c])[q] == Without(fs, home + [c])[q];
    }
  }

  lemma SiblingStays(fs: Fs, h: Fs, home: Path, c: Name, d: Name)
    requires c != d && Without(h, home + [c]) == Without(fs, home + [c])
    ensures TreeAt(h, home + [d]) == TreeAt(fs, home + [d])
  {
    hide TreeAt, Without;
    assert (home + [c])[|home|] == c && (home + [d])[|home|] == d;
    AgreeApart(fs, h, home + [c], home + [d]);
  }

  lemma PruningBegins(fs0: Fs, home: Path, names: seq<Name>, v: seq<Name>, expendable: set<Name>, k: nat)
    requires Elements(v) == Candidates(fs0, home, names) && k <= |v| && expendable !! Elements(v[..k])
    ensures Pruning(fs0, fs0, home, v, expendable, k, 0, true)
  {
    hide TreeAt;
    assert Gone(Elements(v), fs0, home) == {};
  }

  /** A kept candidate. */
  lemma PruningKeeps(fs0: Fs, fs: Fs, home: Path, v: seq<Name>, expendable: set<Name>, k: nat, pruned: nat, clean: bool)
    requires k < |v| && Pruning(fs0, fs, home, v, expendable, k, pruned, clean) && v[k] !in expendable
    ensures Pruning(fs0, fs, home, v, expendable, k + 1, pruned, clean)
  {
    hide TreeAt, OnlyExpendable, Gone;
    ElementsStep(v, k);
  }

  /** What one removal does to the set of those gone. */
  lemma GoneAfter(fs: Fs, after: Fs, home: Path, candidates: set<Name>, c: Name, gone: bool)
    requires c in candidates && Without(after, home + [c]) == Without(fs, home + [c])
    requires home + [c] in fs && (if gone then TreeAt(after, home + [c]) == map[] else home + [c] in after)
    ensures c !in Gone(candidates, fs, home)
    ensures Gone(candidates, after, home) == Gone(candidates, fs, home) + if gone then {c} else {}
    ensures forall d | d in candidates && d != c :: TreeAt(after, home + [d]) == TreeAt(fs, home + [d])
  {
    hide TreeAt, Without;
    RootOf(after, home + [c]);
    forall d | d in candidates && d != c
      ensures TreeAt(after, home + [d]) == TreeAt(fs, home + [d])
      ensures home + [d] in after <==> home + [d] in fs
    {
      SiblingStays(fs, after, home, c, d);
      RootOf(after, home + [d]);
      RootOf(fs, home + [d]);
    }
  }

  /** One removal that succeeded or failed. */
  lemma PruningRemoves(fs0: Fs, fs: Fs, after: Fs, home: Path, v: seq<Name>, expendable: set<Name>, k: nat, pruned: nat,
                       clean: bool, gone: bool)
    requires Distinct(v) && k < |v| && Pruning(fs0, fs, home, v, expendable, k, pruned, clean) && v[k] in expendable
    requires Without(after, home + [v[k]]) == Without(fs, home + [v[k]])
    requires home + [v[k]] in fs && (if gone then TreeAt(after, home + [v[k]]) == map[] else home + [v[k]] in after)
    ensures Pruning(fs0, after, home, v, expendable, k + 1, if gone then pruned + 1 else pruned, clean && gone)
  {
    hide TreeAt, OnlyExpendable, Without, Gone, Elements, Distinct;
    var c := v[k];
    assert c in Elements(v) by { IsElement(v, k); }
    ElementsStep(v, k);
    StaysOnlyExpendable(fs0, fs, after, home, expendable, c);
    GoneAfter(fs, after, home, Elements(v), c, gone);
    OneMoreGone(Gone(Elements(v), fs, home), expendable, Elements(v[..k]), c, gone, clean);
    LaterOnes(v, k);
  }

  lemma IsElement(v: seq<Name>, k: nat)
    requires k < |v|
    ensures v[k] in Elements(v)
  {}

  lemma LaterOnes(v: seq<Name>, k: nat)
    requires Distinct(v) && k < |v|
    ensures forall j | k < j < |v| :: v[j] in Elements(v) && v[j] != v[k]
  {}

  lemma OneMoreGone(was: set<Name>, expendable: set<Name>, done: set<Name>, c: Name, gone: bool, clean: bool)
    requires was <= expendable * done && c in expendable && c !in was && (clean ==> expendable * done <= was)
    ensures var now := was + if gone then {c} else {};
      && now <= expendable * (done + {c}) && |now| == |was| + (if gone then 1 else 0)
      && (clean && gone ==> expendable * (done + {c}) <= now)
  {
    assert !gone ==> was + {} == was;
  }

  /** The removal loop over the sorted candidates. */
  method RemoveExpendable(disk: Disk, home: Path, homeText: string, names: seq<Name>, mtime: Mtimes, keep: nat, v: seq<Name>,
                          active: Option<string>, ghost expendable: set<Name>) returns (pruned: nat)
    requires disk.Valid() && Distinct(v) && Elements(v) == Candidates(disk.fs, home, names)
    requires forall k | 0 <= k < |v| ::
      v[k] in expendable <==> k >= keep && !(active.Some? && PathsEqual(active.value, JoinPath(homeText, v[k])))
    modifies disk
    ensures disk.Valid() && old(disk.history) <= disk.history && disk.faults >= old(disk.faults)
    ensures forall i | |old(disk.history)| <= i < |disk.history| ::
      OnlyExpendable(old(disk.fs), disk.history[i], home, expendable)
    ensures Pruning(old(disk.fs), disk.fs, home, v, expendable, |v|, pruned, disk.faults == old(disk.faults))
  {
    hide TreeAt, OnlyExpendable, Without, Pruning, RemovalOf, PathsEqual, JoinPath, Candidates, Distinct;
    ghost var fs0, clean := disk.fs, true;
    var k := if keep <= |v| then keep else |v|;
    pruned := 0;
    assert expendable !! Elements(v[..k]);
    PruningBegins(fs0, home, names, v, expendable, k);
    while k < |v|
      invariant k <= |v| && disk.Valid() && old(disk.history) <= disk.history && disk.faults >= old(disk.faults)
      invariant k >= keep || k == |v|
      invariant forall i | |old(disk.history)| <= i < |disk.history| :: OnlyExpendable(fs0, disk.history[i], home, expendable)
      invariant Pruning(fs0, disk.fs, home, v, expendable, k, pruned, clean) && (disk.faults == old(disk.faults) ==> clean)
    {
      if active.Some? && PathsEqual(active.value, JoinPath(homeText, v[k])) {
        PruningKeeps(fs0, disk.fs, home, v, expendable, k, pruned, clean);
      } else {
        ghost var fs, c := disk.fs, v[k];
        StillThere(fs0, fs, home, names, v, expendable, k, pruned, clean);
        var e := disk.RemoveDirAll(home + [v[k]]);
        forall h | RemovalOf(fs, h, home + [c])
          ensures OnlyExpendable(fs0, h, home, expendable) && Without(h, home + [c]) == Without(fs, home + [c])
        {
          StaysOnly(fs0, fs, h, home, v, expendable, k, pruned, clean);
        }
        PruningRemoves(fs0, fs, disk.fs, home, v, expendable, k, pruned, clean, e == OK);
        clean := clean && e == OK;
        if e == OK {
          pruned := pruned + 1;
        }
      }
      k := k + 1;
    }
    PruningLoosens(fs0, disk.fs, home, v, expendable, pruned, clean, disk.faults == old(disk.faults));
  }

  lemma StillThere(fs0: Fs, fs: Fs, home: Path, names: seq<Name>, v: seq<Name>, expendable: set<Name>, k: nat, pruned: nat, clean: bool)
    requires k < |v| && Pruning(fs0, fs, home, v, expendable, k, pruned, clean)
    requires Elements(v) == Candidates(fs0, home, names)
    ensures home + [v[k]] in fs && IsDirectory(TreeAt(fs, home + [v[k]]))
  {
    hide TreeAt, OnlyExpendable, Gone;
    assert v[k] in Elements(v);
    RootOf(fs, home + [v[k]]);
    RootOf(fs0, home + [v[k]]);
  }

  lemma StaysOnly(fs0: Fs, fs: Fs, h: Fs, home: Path, v: seq<Name>, expendable: set<Name>, k: nat, pruned: nat, clean: bool)
    requires k < |v| && Pruning(fs0, fs, home, v, expendable, k, pruned, clean) && v[k] in expendable
    requires RemovalOf(fs, h, home + [v[k]])
    ensures OnlyExpendable(fs0, h, home, expendable) && Without(h, home + [v[k]]) == Without(fs, home + [v[k]])
  {
    hide TreeAt, OnlyExpendable, Without, Gone;
    StaysOnlyExpendable(fs0, fs, h, home, expendable, v[k]);
  }

  lemma PruningLoosens(fs0: Fs, fs: Fs, home: Path, v: seq<Name>, expendable: set<Name>, pruned: nat, clean: bool, less: bool)
    requires Pruning(fs0, fs, home, v, expendable, |v|, pruned, clean) && (less ==> clean)
    ensures Pruning(fs0, fs, home, v, expendable, |v|, pruned, less)
  {}

  datatype PruneError = KeepNothing | NoListing

  lemma ExpendableByPosition(fs: Fs, home: Path, homeText: string, names: seq<Name>, mtime: Mtimes, keep: nat, v: seq<Name>,
                             active: Option<string>, expendable: set<Name>)
    requires Elements(v) == Candidates(fs, home, names)
    requires forall k | 0 <= k < |v| :: |Ahead(Candidates(fs, home, names), names, mtime, v[k])| == k
    requires active == (var bin := home + ["bin"];
      if bin in fs && fs[bin].Link? then Some(JoinPath(homeText, fs[bin].target)) else None)
    requires expendable == Doomed(fs, home, homeText, names, mtime, keep)
    ensures forall k | 0 <= k < |v| ::
      v[k] in expendable <==> k >= keep && !(active.Some? && PathsEqual(active.value, JoinPath(homeText, v[k])))
  {
    hide Candidates, Ahead, PathsEqual, JoinPath;
    forall k | 0 <= k < |v|
      ensures v[k] in expendable <==> k >= keep && !(active.Some? && PathsEqual(active.value, JoinPath(homeText, v[k])))
    {
      assert v[k] in Elements(v);
    }
  }

  lemma PruningEnds(fs0: Fs, fs: Fs, home: Path, names: seq<Name>, v: seq<Name>, expendable: set<Name>, pruned: nat, clean: bool)
    requires Pruning(fs0, fs, home, v, expendable, |v|, pruned, clean)
    requires Elements(v) == Candidates(fs0, home, names) && expendable <= Elements(v)
    ensures OnlyExpendable(fs0, fs, home, expendable)
    ensures var gone := Gone(Candidates(fs0, home, names), fs, home);
      && gone <= expendable && pruned == |gone| && (forall c | c in gone :: TreeAt(fs, home + [c]) == map[])
      && (clean ==> gone == expendable)
  {
    hide TreeAt, OnlyExpendable, Gone, Candidates;
    assert v[..|v|] == v;
    assert expendable * Elements(v) == expendable;
  }

  /** `prune_old_bin_versions`: the listing of the home, if it can be read, comes in any order. */
  method PruneOldBinVersions(disk: Disk, home: Path, homeText: string, listing: Option<seq<Name>>, mtime: Mtimes, keep: nat)
      returns (r: Result<nat, PruneError>)
    requires disk.Valid() && (listing.Some? ==> Distinct(listing.value))
    modifies disk
    ensures disk.Valid() && old(disk.history) <= disk.history && disk.faults >= old(disk.faults)
    ensures r.Err? <==> keep == 0 || listing.None?
    ensures r.Err? ==> disk.fs == old(disk.fs) && disk.history == old(disk.history)
    ensures r.Ok? ==>
      var fs, names := old(disk.fs), listing.value;
      var candidates := Candidates(fs, home, names);
      var expendable := Doomed(fs, home, homeText, names, mtime, keep);
      && (forall i | |old(disk.history)| <= i < |disk.history| :: OnlyExpendable(fs, disk.history[i], home, expendable))
      && OnlyExpendable(fs, disk.fs, home, expendable)
      && Gone(candidates, disk.fs, home) <= expendable
      && (forall c | c in Gone(candidates, disk.fs, home) :: TreeAt(disk.fs, home + [c]) == map[])
      && r.value == |Gone(candidates, disk.fs, home)|
      && (disk.faults == old(disk.faults) ==> Gone(candidates, disk.fs, home) == expendable)
  {
    hide TreeAt, Without, OnlyExpendable, Gone, Candidates, Expendable, Ahead, PathsEqual, JoinPath, Pruning, Elements, Distinct,
      NewestFirst, Listed, Ordered;
    if keep == 0 {
      return Err(KeepNothing);
    }
    if listing.None? {
      return Err(NoListing);
    }
    var names := listing.value;
    var versioned := CollectCandidates(disk.fs, home, names);
    versioned := NewestFirst(versioned, mtime);
    RankingIsRanked(disk.fs, home, names, mtime);
    var bin := home + ["bin"];
    var active := if bin in disk.fs && disk.fs[bin].Link? then Some(JoinPath(homeText, disk.fs[bin].target)) else None;
    ghost var fs, candidates := disk.fs, Candidates(disk.fs, home, names);
    ghost var expendable := Doomed(fs, home, homeText, names, mtime, keep);
    ExpendableByPosition(fs, home, homeText, names, mtime, keep, versioned, active, expendable);
    var pruned := RemoveExpendable(disk, home, homeText, names, mtime, keep, versioned, active, expendable);
    PruningEnds(fs, disk.fs, home, names, versioned, expendable, pruned, disk.faults == old(disk.faults));
    return Ok(pruned);
  }

  // ---------- What the retention rule means -----------------------------------

  /** Every expendable tree has `keep` candidates at least as new that are not expendable, so whatever
      the pruner removes leaves that many newer ones behind. */
  lemma NewerSurvivors(fs: Fs, home: Path, homeText: string, names: seq<Name>, mtime: Mtimes, keep: nat, c: Name)
      returns (kept: set<Name>)
    requires Distinct(names) && Expendable(fs, home, homeText, names, mtime, keep, c)
    ensures |kept| == keep && kept <= Candidates(fs, home, names)
    ensures forall d | d in kept ::
      mtime(d) >= mtime(c) && d != c && !Expendable(fs, home, homeText, names, mtime, keep, d)
  {
    hide IsActive, IsCandidate;
    var candidates := Candidates(fs, home, names);
    var v := Ranking(fs, home, names, mtime);
    RankingIsRanked(fs, home, names, mtime);
    assert c in Elements(v);
    var p :| 0 <= p < |v| && v[p] == c;
    PositionIsRank(names, mtime, v, p);
    kept := Elements(v[..keep]);
    SizeOfDistinct(v, keep);
    forall d | d in kept
      ensures d in candidates && mtime(d) >= mtime(c) && d != c
      ensures |Ahead(candidates, names, mtime, d)| < keep
    {
      var i :| 0 <= i < keep && v[i] == d;
      PositionIsRank(names, mtime, v, i);
      assert d in Elements(v) && Newer(names, mtime, v[i], v[p]);
      NewerIsStrict(names, mtime, d, c);
    }
  }

  /** After a pass in which every removal succeeded, the same listing offers nothing more to remove. */
  lemma NothingLeftToPrune(before: Fs, after: Fs, home: Path, homeText: string, names: seq<Name>, mtime: Mtimes, keep: nat)
    requires var candidates := Candidates(before, home, names);
      var expendable := Doomed(before, home, homeText, names, mtime, keep);
      OnlyExpendable(before, after, home, expendable) && Gone(candidates, after, home) == expendable
    ensures forall c :: !Expendable(after, home, homeText, names, mtime, keep, c)
    ensures Candidates(after, home, names) == Candidates(before, home, names) - Gone(Candidates(before, home, names), after, home)
  {
    hide PathsEqual, JoinPath, Ahead, OnlyExpendable, Candidates, Gone;
    var candidates := Candidates(before, home, names);
    var gone := Gone(candidates, after, home);
    CandidatesLeft(before, after, home, names, gone);
    BinIsNoCandidate(before, home, names);
    NameStays(before, after, home, gone, "bin");
    forall c | c in Candidates(after, home, names)
      ensures !Expendable(after, home, homeText, names, mtime, keep, c)
    {
      FewerAhead(Candidates(after, home, names), candidates, names, mtime, c);
      assert c in candidates && c !in gone;
    }
  }

  lemma BinIsNoCandidate(fs: Fs, home: Path, names: seq<Name>)
    ensures "bin" !in Candidates(fs, home, names)
  {}

  lemma CandidatesLeft(before: Fs, after: Fs, home: Path, names: seq<Name>, gone: set<Name>)
    requires OnlyExpendable(before, after, home, gone) && gone == Gone(Candidates(before, home, names), after, home)
    ensures Candidates(after, home, names) == Candidates(before, home, names) - gone
  {
    hide OnlyExpendable, VersionedName;
    forall n | n !in gone
      ensures IsCandidate(after, home, n) <==> IsCandidate(before, home, n)
    {
      NameStays(before, after, home, gone, n);
    }
  }

  lemma NameStays(before: Fs, after: Fs, home: Path, gone: set<Name>, n: Name)
    requires OnlyExpendable(before, after, home, gone) && n !in gone
    ensures home + [n] in after <==> home + [n] in before
    ensures home + [n] in before ==> after[home + [n]] == before[home + [n]]
  {
    forall c | c in gone
      ensures !(home + [c] <= home + [n])
    {
      assert (home + [c])[|home|] == c && (home + [n])[|home|] == n;
    }
  }

  lemma FewerAhead(some: set<Name>, all: set<Name>, names: seq<Name>, mtime: Mtimes, c: Name)
    requires some <= all
    ensures |Ahead(some, names, mtime, c)| <= |Ahead(all, names, mtime, c)|
  {
    hide Newer;
    SubsetSize(Ahead(some, names, mtime, c), Ahead(all, names, mtime, c));
  }

  lemma {:induction false} SubsetSize(a: set<Name>, b: set<Name>)
    requires a <= b
    ensures |a| <= |b|
  {
    if a != {} {
      var x :| x in a;
      SubsetSize(a - {x}, b - {x});
    }
  }

  /** The disk without these trees of the home. */
  function AfterPass(fs: Fs, home: Path, gone: set<Name>): (after: Fs)
    ensures forall q :: q in after <==> q in fs && forall c | c in gone :: !(home + [c] <= q)
    ensures forall q | q in after :: after[q] == fs[q]
  {
    map q | q in fs && forall c | c in gone :: !(home + [c] <= q) :: fs[q]
  }

  lemma PassLeaves(fs: Fs, after: Fs, home: Path, gone: set<Name>)
    requires OnlyExpendable(fs, after, home, gone) && forall c | c in gone :: TreeAt(after, home + [c]) == map[]
    ensures after == AfterPass(fs, home, gone)
  {
    forall q
      ensures q in after <==> q in AfterPass(fs, home, gone)
    {
      if c :| c in gone && home + [c] <= q {
        var p := home + [c];
        assert p + q[|p|..] == q;
        assert q[|p|..] in TreeAt(after, p) <==> q in after;
      }
    }
  }

  lemma NothingExpendable(fs: Fs, after: Fs, home: Path)
    requires OnlyExpendable(fs, after, home, {})
    ensures after == fs
  {}

  /** After a pass from `before` in which every removal succeeded. */
  ghost predicate Pruned(before: Fs, fs: Fs, home: Path, homeText: string, names: seq<Name>, mtime: Mtimes, keep: nat) {
    var doomed := Doomed(before, home, homeText, names, mtime, keep);
    OnlyExpendable(before, fs, home, doomed) && Gone(Candidates(before, home, names), fs, home) == doomed
  }

  /** The next pass has nothing to do, and does nothing. */
  method PruneAgain(disk: Disk, ghost before: Fs, home: Path, homeText: string, names: seq<Name>, mtime: Mtimes, keep: nat)
      returns (r: Result<nat, PruneError>)
    requires disk.Valid() && Distinct(names) && keep > 0
    modifies disk
    ensures disk.Valid() && old(disk.history) <= disk.history && disk.faults >= old(disk.faults)
    ensures Pruned(before, old(disk.fs), home, homeText, names, mtime, keep) ==>
      r == Ok(0) && forall i | |old(disk.history)| - 1 <= i < |disk.history| :: disk.history[i] == old(disk.fs)
  {
    hide TreeAt, Without, Candidates, Expendable, Gone, Distinct, OnlyExpendable;
    ghost var fs := disk.fs;
    r := PruneOldBinVersions(disk, home, homeText, Some(names), mtime, keep);
    if Pruned(before, fs, home, homeText, names, mtime, keep) {
      NothingLeftToPrune(before, fs, home, homeText, names, mtime, keep);
      assert Doomed(fs, home, homeText, names, mtime, keep) == {};
      assert Gone(Candidates(fs, home, names), disk.fs, home) == {};
      forall i | |old(disk.history)| - 1 <= i < |disk.history|
        ensures disk.history[i] == fs
      {
        if i >= |old(disk.history)| { NothingExpendable(fs, disk.history[i], home); }
      }
    }
  }

  lemma PassIsPruned(fs: Fs, after: Fs, home: Path, homeText: string, names: seq<Name>, mtime: Mtimes, keep: nat)
    requires var doomed := Doomed(fs, home, homeText, names, mtime, keep);
      && OnlyExpendable(fs, after, home, doomed) && Gone(Candidates(fs, home, names), after, home) == doomed
      && forall c | c in doomed :: TreeAt(after, home + [c]) == map[]
    ensures Pruned(fs, after, home, homeText, names, mtime, keep)
    ensures after == AfterPass(fs, home, Doomed(fs, home, homeText, names, mtime, keep))
  {
    hide TreeAt, Candidates, Gone, OnlyExpendable, AfterPass, Doomed;
    PassLeaves(fs, after, home, Doomed(fs, home, homeText, names, mtime, keep));
  }

  /** Two passes over the same listing, neither meeting an error: the first leaves exactly the disk without
      the expendable trees; from moment `mid`, when the second begins, no state differs from that. */
  method PruneTwice(disk: Disk, home: Path, homeText: string, names: seq<Name>, mtime: Mtimes, keep: nat)
      returns (first: Result<nat, PruneError>, second: Result<nat, PruneError>, mid: nat)
    requires disk.Valid() && Distinct(names) && keep > 0
    modifies disk
    ensures disk.Valid() && |old(disk.history)| <= mid <= |disk.history| && disk.faults >= old(disk.faults)
    ensures disk.faults == old(disk.faults) ==>
      var doomed := Doomed(old(disk.fs), home, homeText, names, mtime, keep);
      && first == Ok(|doomed|) && second == Ok(0)
      && forall i | mid - 1 <= i < |disk.history| :: disk.history[i] == AfterPass(old(disk.fs), home, doomed)
  {
    hide TreeAt, Without, Candidates, Expendable, Gone, Distinct, OnlyExpendable, AfterPass, Doomed, Pruned;
    ghost var fs, faults := disk.fs, disk.faults;
    first := PruneOldBinVersions(disk, home, homeText, Some(names), mtime, keep);
    mid := |disk.history|;
    if disk.faults == faults { PassIsPruned(fs, disk.fs, home, homeText, names, mtime, keep); }
    second := PruneAgain(disk, fs, home, homeText, names, mtime, keep);
  }

  // ---------- What the `bin` link protects ------------------------------------

  lemma {:induction false} TrimSlashesAppend(a: string, t: string)
    ensures TrimSlashes(a + t) == if TrimSlashes(t) == "" then TrimSlashes(a) else a + TrimSlashes(t)
  {
    if t == "" {
      assert a + t == a;
    } else if t[|t| - 1] == '/' {
      assert (a + t)[..|a + t| - 1] == a + t[..|t| - 1];
      TrimSlashesAppend(a, t[..|t| - 1]);
    }
  }

  /** Paths joined to a home are equal when they are spelled alike, or one spells the home out. */
  lemma SpelledAlike(homeText: string, target: string, c: Name)
    requires homeText != "" && homeText[|homeText| - 1] != '/' && c != "" && '/' !in c
    ensures PathsEqual(JoinPath(homeText, target), JoinPath(homeText, c))
      <==> TrimSlashes(target) == if target != "" && target[0] == '/' then homeText + "/" + c else c
  {
    hide TrimSlashes;
    var base := homeText + "/";
    assert c[|c| - 1] in c && c[0] in c;
    TrimSlashesAppend(base, c);
    NoSlashToTrim(c);
    if !(target != "" && target[0] == '/') {
      TrimSlashesAppend(base, target);
      HomeTrimmed(homeText);
      SameRest(base, TrimSlashes(target), c);
      assert |homeText| < |base + c|;
    }
  }

  lemma NoSlashToTrim(c: Name)
    requires c != "" && c[|c| - 1] != '/'
    ensures TrimSlashes(c) == c
  {}

  lemma HomeTrimmed(homeText: string)
    requires homeText != "" && homeText[|homeText| - 1] != '/'
    ensures TrimSlashes(homeText + "/") == homeText
  {
    var base := homeText + "/";
    assert base[..|base| - 1] == homeText;
  }

  lemma SameRest(base: string, a: string, b: string)
    ensures base + a == base + b <==> a == b
  {
    assert (base + a)[|base|..] == a && (base + b)[|base|..] == b;
  }

  /** The link protects a tree it is said to protect exactly when its target is spelled as the bare
      name, or as the home's text, a slash and the name; trailing slashes aside. */
  lemma PreservedExactly(fs: Fs, home: Path, homeText: string, names: seq<Name>, mtime: Mtimes, keep: nat, c: Name)
    requires var candidates := Candidates(fs, home, names);
      c in candidates && |Ahead(candidates, names, mtime, c)| >= keep
    requires home + ["bin"] in fs && fs[home + ["bin"]].Link?
    requires homeText != "" && homeText[|homeText| - 1] != '/' && '/' !in c
    ensures var target := fs[home + ["bin"]].target;
      !Expendable(fs, home, homeText, names, mtime, keep, c)
      <==> TrimSlashes(target) == if target != "" && target[0] == '/' then homeText + "/" + c else c
  {
    hide Ahead, TrimSlashes, PathsEqual, JoinPath;
    SpelledAlike(homeText, fs[home + ["bin"]].target, c);
  }

  /** A home with two versions, and a `bin` link to the older one spelled `./bin.1`. */
  function DotSlashHome(): Fs {
    map[["h"] := Dir(0), ["h", "bin"] := Link("./bin.1"), ["h", "bin.1"] := Dir(0), ["h", "bin.2"] := Dir(0)]
  }

  /** The link resolves to the tree `bin.1`, and yet does not protect it. */
  lemma DotSlashTargetIsNotProtected(mtime: Mtimes)
    requires mtime("bin.2") > mtime("bin.1")
    ensures Resolve(DotSlashHome(), [], ["h", "bin"], MAX_SYMLINKS) == Some(["h", "bin.1"])
    ensures Expendable(DotSlashHome(), ["h"], "/h", ["bin.1", "bin.2"], mtime, 1, "bin.1")
  {
    hide Resolve, Expendable, DotSlashHome;
    DotSlashResolves();
    DotSlashIsExpendable(mtime);
  }

  lemma DotSlashResolves()
    ensures Resolve(DotSlashHome(), [], ["h", "bin"], MAX_SYMLINKS) == Some(["h", "bin.1"])
  {
    hide Split;
    var fs := DotSlashHome();
    SplitDotBin();
    assert [] + ["h"] == ["h"] && ["h"] + ["bin"] == ["h", "bin"] && ["h"] + ["bin.1"] == ["h", "bin.1"];
    assert ["h", "bin"][1..] == ["bin"] && ["bin"][1..] == [] && ["bin.1"][1..] == [];
    assert [".", "bin.1"] + [] == [".", "bin.1"] && [".", "bin.1"][1..] == ["bin.1"];
    calc {
      Resolve(fs, [], ["h", "bin"], MAX_SYMLINKS);
      Resolve(fs, ["h"], ["bin"], MAX_SYMLINKS);
      Resolve(fs, ["h"], [".", "bin.1"], MAX_SYMLINKS - 1);
      Resolve(fs, ["h"], ["bin.1"], MAX_SYMLINKS - 1);
      Resolve(fs, ["h", "bin.1"], [], MAX_SYMLINKS - 1);
    }
  }

  lemma DotSlashIsExpendable(mtime: Mtimes)
    requires mtime("bin.2") > mtime("bin.1")
    ensures Expendable(DotSlashHome(), ["h"], "/h", ["bin.1", "bin.2"], mtime, 1, "bin.1")
  {
    hide IsActive;
    var fs, names := DotSlashHome(), ["bin.1", "bin.2"];
    assert ["h"] + ["bin.1"] == ["h", "bin.1"] && ["h"] + ["bin.2"] == ["h", "bin.2"] && ["h"] + ["bin"] == ["h", "bin"];
    var candidates := Candidates(fs, ["h"], names);
    assert "bin.2"[4..] == "2" && "bin.1"[4..] == "1";
    assert "bin.1" in candidates && "bin.2" in candidates;
    assert Newer(names, mtime, "bin.2", "bin.1");
    var ahead := Ahead(candidates, names, mtime, "bin.1");
    assert "bin.2" in ahead;
    SubsetSize({"bin.2"}, ahead);
    PreservedExactly(fs, ["h"], "/h", names, mtime, 1, "bin.1");
  }

  lemma SplitDotBin()
    ensures Split("./bin.1", '/') == [".", "bin.1"]
  {
    var parts := [".", "bin.1"];
    assert Join(["bin.1"], '/') == "bin.1";
    assert parts[1..] == ["bin.1"];
    assert Join(parts, '/') == "./bin.1";
    SplitJoin(parts, '/');
  }
}
