/** purgeEmptyFolders of pkg/unpackerr/start.go: after files are deleted, the directories
    above them that are left empty are removed in one pass, the longest paths first. */
module PurgeEmpty {

  import opened FileTree
  import opened Wrappers

  // ---------------------------------------------------------------- which directories are looked at

  /** dir is path or lies above it. */
  predicate Above(dir: Path, path: Path) {
    dir <= path
  }

  predicate Under(root: Option<Path>, dir: Path) {
    root.None? || Above(root.value, dir)
  }

  /** A directory above some path, at or below root: p is above path when it is a proper
      prefix; the top counts as lying above itself. */
  predicate IsCandidate(paths: seq<Option<Path>>, root: Option<Path>, dir: Path) {
    Under(root, dir) && exists i :: 0 <= i < |paths| && paths[i].Some? && Above(dir, Parent(paths[i].value))
  }

  method AddAncestors(path: Path, root: Option<Path>, before: set<Path>) returns (candidates: set<Path>)
    ensures forall d :: d in candidates <==> d in before || (Under(root, d) && Above(d, Parent(path)))
  {
    candidates := before;
    var dir := Parent(path);
    while true
      invariant dir <= Parent(path)
      invariant forall d ::
                  d in candidates <==> d in before || (Under(root, d) && Above(d, Parent(path)) && !Above(d, dir))
      decreases |dir|
    {
      if root.Some? && !Above(root.value, dir) {
        PrefixOut(root.value, dir);
        break;
      }
      candidates := candidates + {dir};
      Between(dir);
      if root == Some(dir) {
        break;
      }
      if Parent(dir) == dir {
        break;
      }
      NextUp(dir, Parent(path));
      dir := Parent(dir);
    }
  }

  lemma PrefixOut(root: Path, dir: Path)
    requires !Above(root, dir)
    ensures forall d: Path :: Above(d, dir) ==> !Above(root, d)
  {
  }

  lemma Between(dir: Path)
    ensures forall d: Path :: Above(d, dir) && Above(dir, d) ==> d == dir
    ensures dir == [] ==> forall d: Path :: Above(d, dir) ==> d == dir
  {
  }

  lemma NextUp(dir: Path, top: Path)
    requires dir != [] && dir <= top
    ensures Parent(dir) <= top
    ensures forall d: Path :: Above(d, dir) <==> d == dir || Above(d, Parent(dir))
  {
  }

  method Candidates(paths: seq<Option<Path>>, root: Option<Path>) returns (candidates: set<Path>)
    ensures forall d :: d in candidates <==> IsCandidate(paths, root, d)
  {
    candidates := {};
    for i := 0 to |paths|
      invariant forall d :: d in candidates <==> IsCandidate(paths[..i], root, d)
    {
      if paths[i].Some? {
        candidates := AddAncestors(paths[i].value, root, candidates);
      }
      CandidateNext(paths, root, i);
    }
    assert paths[..|paths|] == paths;
  }

  lemma CandidateNext(paths: seq<Option<Path>>, root: Option<Path>, i: nat)
    requires i < |paths|
    ensures forall d :: IsCandidate(paths[..i + 1], root, d) <==>
              || IsCandidate(paths[..i], root, d)
              || (paths[i].Some? && Under(root, d) && Above(d, Parent(paths[i].value)))
  {
    forall d ensures IsCandidate(paths[..i + 1], root, d) <==>
                       || IsCandidate(paths[..i], root, d)
                       || (paths[i].Some? && Under(root, d) && Above(d, Parent(paths[i].value)))
    {
      assert paths[..i + 1] == paths[..i] + [paths[i]];
      assert paths[..i + 1][i] == paths[i];
    }
  }

  // ---------------------------------------------------------------- what one pass does

  /** A candidate directory with nothing at all below it but candidate directories that can
      be removed. */
  predicate FoundEmpty(t: Tree, stuck: set<Path>, candidates: set<Path>, dir: Path) {
    && dir in candidates && IsDir(t, dir)
    && forall q :: q in t && dir < q ==> q in candidates && t[q] == Dir && q !in stuck
  }

  /** and that can be removed itself. */
  predicate Doomed(t: Tree, stuck: set<Path>, candidates: set<Path>, dir: Path) {
    FoundEmpty(t, stuck, candidates, dir) && dir !in stuck
  }

  function Purged(t: Tree, stuck: set<Path>, candidates: set<Path>): Tree {
    map p | p in t && !Doomed(t, stuck, candidates, p) :: t[p]
  }

  function AllFound(t: Tree, stuck: set<Path>, candidates: set<Path>, done: set<Path>): set<Path> {
    set d | d in done && FoundEmpty(t, stuck, candidates, d)
  }

  // ---------------------------------------------------------------- the order

  /** The length of the path as text: a separator before each component. */
  function Length(p: Path): nat {
    if p == [] then 0 else Length(p[..|p| - 1]) + 1 + |p[|p| - 1]|
  }

  /** What sort.Slice compares: the top is written "/". */
  function TextLength(p: Path): nat {
    if p == [] then 1 else Length(p)
  }

  lemma {:induction false} LongerBelow(p: Path, q: Path)
    requires p < q && forall i :: 0 <= i < |q| ==> q[i] != ""
    ensures TextLength(p) < TextLength(q)
    decreases |q|
  {
    var up := q[..|q| - 1];
    if p != up {
      LongerBelow(p, up);
    }
  }

  predicate Cleaned(p: Path) {
    forall i :: 0 <= i < |p| ==> p[i] != ""
  }

  /** dirs lists the candidates, the longest first. */
  predicate LongestFirst(dirs: seq<Path>) {
    forall i, j :: 0 <= i < j < |dirs| ==> TextLength(dirs[i]) >= TextLength(dirs[j])
  }

  ghost predicate Lists(dirs: seq<Path>, candidates: set<Path>) {
    && (forall d :: d in dirs <==> d in candidates)
    && (forall i, j :: 0 <= i < j < |dirs| ==> dirs[i] != dirs[j])
  }

  /** In such an order everything below a directory comes before it. */
  lemma BelowComesFirst(dirs: seq<Path>, i: nat, q: Path)
    requires LongestFirst(dirs) && i < |dirs| && q in dirs && dirs[i] < q && Cleaned(q)
    ensures q in dirs[..i]
  {
    LongerBelow(dirs[i], q);
    var j :| 0 <= j < |dirs| && dirs[j] == q;
    assert j < i;
    assert dirs[..i][j] == q;
  }

  // ---------------------------------------------------------------- one directory

  /** The tree after the directories in `done` had their turn. */
  function Partly(t: Tree, stuck: set<Path>, candidates: set<Path>, done: set<Path>): Tree {
    map p | p in t && !(p in done && Doomed(t, stuck, candidates, p)) :: t[p]
  }

  /** A directory is not found empty because of something directly in it that stays. */
  lemma WhyNotEmpty(t: Tree, stuck: set<Path>, candidates: set<Path>, dir: Path) returns (child: Path)
    requires Rooted(t) && dir in candidates && IsDir(t, dir) && !FoundEmpty(t, stuck, candidates, dir)
    ensures child in t && child != [] && Parent(child) == dir && !Doomed(t, stuck, candidates, child)
  {
    var q :| q in t && dir < q && !(q in candidates && t[q] == Dir && q !in stuck);
    PrefixLength(dir, q);
    child := q[..|dir| + 1];
    if child != q {
      AncestorsPresent(t, child, q);
    }
  }

  /** The next directory has an empty turn exactly when all below it could be removed. */
  lemma EmptyIsFound(t: Tree, stuck: set<Path>, candidates: set<Path>, done: set<Path>, dir: Path)
    requires Rooted(t) && dir in candidates && dir !in done
    requires forall q :: q in candidates && dir < q ==> q in done
    ensures IsEmptyDir(Partly(t, stuck, candidates, done), dir) <==> FoundEmpty(t, stuck, candidates, dir)
  {
    var now := Partly(t, stuck, candidates, done);
    if FoundEmpty(t, stuck, candidates, dir) {
      forall q | q in t && q != [] && Parent(q) == dir ensures q !in now {
        assert dir < q && Doomed(t, stuck, candidates, q);
      }
    } else if IsDir(t, dir) {
      var child := WhyNotEmpty(t, stuck, candidates, dir);
      assert child in now;
    }
  }

  lemma DoneOne(t: Tree, stuck: set<Path>, candidates: set<Path>, done: set<Path>, dir: Path)
    ensures var now := Partly(t, stuck, candidates, done);
            Partly(t, stuck, candidates, done + {dir}) == if Doomed(t, stuck, candidates, dir) then now - {dir} else now
    ensures var found := AllFound(t, stuck, candidates, done);
            AllFound(t, stuck, candidates, done + {dir})
            == if FoundEmpty(t, stuck, candidates, dir) then found + {dir} else found
  {
  }

  /** Removing an empty directory removes just that, or nothing when it is stuck. */
  lemma EmptyRemoved(t: Tree, stuck: set<Path>, dir: Path)
    requires Rooted(t) && IsEmptyDir(t, dir)
    ensures RemovedBut(t, stuck, dir) == if dir in stuck then t else t - {dir}
  {
    forall q | q in t && dir <= q ensures q == dir {
      OnlyItself(t, dir, q);
    }
    if dir in stuck {
      assert dir in t && dir <= dir;
      assert Pinned(t, stuck, dir);
    } else {
      RemovesAll(t, stuck, dir);
      RemovedEmpty(t, dir);
    }
  }

  lemma NextDone(t: Tree, stuck: set<Path>, candidates: set<Path>, done: set<Path>, dir: Path)
    requires Rooted(t) && Rooted(Partly(t, stuck, candidates, done)) && dir in candidates && dir !in done
    requires forall q :: q in candidates && dir < q ==> q in done
    ensures var now := Partly(t, stuck, candidates, done);
            var next := if IsEmptyDir(now, dir) then RemovedBut(now, stuck, dir) else now;
            next == Partly(t, stuck, candidates, done + {dir}) && Rooted(next)
    ensures IsEmptyDir(Partly(t, stuck, candidates, done), dir) <==> FoundEmpty(t, stuck, candidates, dir)
  {
    var now := Partly(t, stuck, candidates, done);
    EmptyIsFound(t, stuck, candidates, done, dir);
    DoneOne(t, stuck, candidates, done, dir);
    if IsEmptyDir(now, dir) {
      RemovedButRooted(now, stuck, dir);
      EmptyRemoved(now, stuck, dir);
    }
  }

  lemma OneMoreFound(t: Tree, stuck: set<Path>, candidates: set<Path>, done: set<Path>, dir: Path)
    requires dir !in done
    ensures |AllFound(t, stuck, candidates, done + {dir})|
         == |AllFound(t, stuck, candidates, done)| + if FoundEmpty(t, stuck, candidates, dir) then 1 else 0
  {
    DoneOne(t, stuck, candidates, done, dir);
  }

  // ---------------------------------------------------------------- the program

  /** Every candidate of some paths and a root. */
  function CandidateSet(paths: seq<Option<Path>>, root: Option<Path>): set<Path> {
    set i, k | 0 <= i < |paths| && paths[i].Some? && 0 <= k <= |Parent(paths[i].value)|
               && Under(root, Parent(paths[i].value)[..k]) :: Parent(paths[i].value)[..k]
  }

  lemma CandidateSetIs(paths: seq<Option<Path>>, root: Option<Path>, dir: Path)
    ensures dir in CandidateSet(paths, root) <==> IsCandidate(paths, root, dir)
  {
    if IsCandidate(paths, root, dir) {
      var i :| 0 <= i < |paths| && paths[i].Some? && Above(dir, Parent(paths[i].value));
      assert dir == Parent(paths[i].value)[..|dir|];
    }
  }

  lemma CandidatesCleaned(paths: seq<Option<Path>>, root: Option<Path>, dir: Path)
    requires AllCleaned(paths) && IsCandidate(paths, root, dir)
    ensures Cleaned(dir)
  {
  }

  lemma {:induction false} LongestExists(dirs: set<Path>) returns (d: Path)
    requires dirs != {}
    ensures d in dirs && forall e :: e in dirs ==> TextLength(d) >= TextLength(e)
  {
    d :| d in dirs;
    if dirs != {d} {
      var best := LongestExists(dirs - {d});
      if TextLength(best) > TextLength(d) {
        d := best;
      }
    }
  }

  method SortLongestFirst(candidates: set<Path>) returns (dirs: seq<Path>)
    ensures Lists(dirs, candidates) && LongestFirst(dirs)
  {
    dirs := [];
    var rest := candidates;
    while rest != {}
      invariant rest <= candidates && Lists(dirs, candidates - rest) && LongestFirst(dirs)
      invariant forall d, e :: d in dirs && e in rest ==> TextLength(d) >= TextLength(e)
      decreases |rest|
    {
      ghost var longest := LongestExists(rest);
      var d :| d in rest && forall e :: e in rest ==> TextLength(d) >= TextLength(e);
      dirs := dirs + [d];
      rest := rest - {d};
    }
  }

  class Disk {
    var tree: Tree
    const stuck: set<Path>

    constructor (tree: Tree, stuck: set<Path>)
      ensures this.tree == tree && this.stuck == stuck
    {
      this.tree, this.stuck := tree, stuck;
    }

    method DeleteFiles(paths: seq<Path>)
      modifies this
      ensures tree == RemovedEach(old(tree), stuck, paths)
    {
      for i := 0 to |paths|
        invariant tree == RemovedEach(old(tree), stuck, paths[..i])
      {
        tree := RemovedBut(tree, stuck, paths[i]);
        assert paths[..i + 1][..i] == paths[..i];
      }
      assert paths[..|paths|] == paths;
    }

    method DirIsEmpty(dir: Path) returns (empty: bool)
      ensures empty == IsEmptyDir(tree, dir)
    {
      empty := IsDir(tree, dir) && forall q :: q in tree && q != [] ==> Parent(q) != dir;
    }

    /** The loop over the sorted directories. A directory that cannot be removed counts too. */
    method PurgeDirs(ghost candidates: set<Path>, dirs: seq<Path>) returns (purged: nat)
      requires Rooted(tree) && GoodOrder(dirs, candidates)
      modifies this
      ensures Rooted(tree) && tree == Purged(old(tree), stuck, candidates)
      ensures purged == |AllFound(old(tree), stuck, candidates, candidates)|
    {
      purged := 0;
      NoneDone(tree, stuck, candidates, dirs);
      for i := 0 to |dirs|
        invariant Rooted(tree) && tree == Partly(old(tree), stuck, candidates, Firsts(dirs, i))
        invariant purged == |AllFound(old(tree), stuck, candidates, Firsts(dirs, i))|
      {
        NextDone(old(tree), stuck, candidates, Firsts(dirs, i), dirs[i]);
        OneMoreFound(old(tree), stuck, candidates, Firsts(dirs, i), dirs[i]);
        FirstsNext(dirs, i);
        var empty := DirIsEmpty(dirs[i]);
        if empty {
          OnlyOne(tree, stuck, dirs[i]);
          DeleteFiles([dirs[i]]);
          purged := purged + 1;
        }
      }
      AllDone(old(tree), stuck, candidates, dirs);
    }

    /** One pass removes exactly the doomed candidates and counts those found empty, whatever
        the order among paths of the same length. */
    method PurgeEmptyFolders(paths: seq<Option<Path>>, root: Option<Path>) returns (purged: nat)
      requires Rooted(tree) && AllCleaned(paths)
      modifies this
      ensures var candidates := CandidateSet(paths, root);
              && Rooted(tree) && tree == Purged(old(tree), stuck, candidates)
              && purged == |AllFound(old(tree), stuck, candidates, candidates)|
    {
      var candidates := Candidates(paths, root);
      AreCandidates(paths, root, candidates);
      if candidates == {} {
        assert tree == Purged(tree, stuck, {});
        assert AllFound(tree, stuck, {}, {}) == {};
        return 0;
      }
      var dirs := SortLongestFirst(candidates);
      SortedIsGood(paths, root, dirs);
      purged := PurgeDirs(candidates, dirs);
    }

    /** A delete request: the files, then the directories they leave empty. */
    method DeleteRequest(paths: seq<Path>, purgeEmptyParent: bool, root: Option<Path>) returns (purged: nat)
      requires Rooted(tree) && forall p :: p in paths ==> Cleaned(p)
      modifies this
      ensures var deleted, candidates := RemovedEach(old(tree), stuck, paths), CandidateSet(Somes(paths), root);
              && tree == (if purgeEmptyParent then Purged(deleted, stuck, candidates) else deleted)
              && purged == (if purgeEmptyParent then |AllFound(deleted, stuck, candidates, candidates)| else 0)
    {
      RemovedEachRooted(tree, stuck, paths);
      DeleteFiles(paths);
      purged := 0;
      if purgeEmptyParent && |paths| > 0 {
        purged := PurgeEmptyFolders(Somes(paths), root);
      } else if |paths| == 0 {
        assert CandidateSet(Somes(paths), root) == {};
        assert tree == Purged(tree, stuck, {});
        assert AllFound(tree, stuck, {}, {}) == {};
      }
    }
  }

  lemma OnlyOne(t: Tree, stuck: set<Path>, p: Path)
    ensures RemovedEach(t, stuck, [p]) == RemovedBut(t, stuck, p)
  {
    assert [p][..0] == [];
  }

  function Somes(paths: seq<Path>): seq<Option<Path>> {
    seq(|paths|, i requires 0 <= i < |paths| => Some(paths[i]))
  }

  predicate AllCleaned(paths: seq<Option<Path>>) {
    forall i :: 0 <= i < |paths| && paths[i].Some? ==> Cleaned(paths[i].value)
  }

  function Firsts(dirs: seq<Path>, i: nat): set<Path>
    requires i <= |dirs|
  {
    set d | d in dirs[..i]
  }

  lemma FirstsNext(dirs: seq<Path>, i: nat)
    requires i < |dirs|
    ensures Firsts(dirs, i + 1) == Firsts(dirs, i) + {dirs[i]}
  {
    assert dirs[..i + 1] == dirs[..i] + [dirs[i]];
  }

  /** dirs lists the candidates, everything below a directory before it. */
  ghost predicate GoodOrder(dirs: seq<Path>, candidates: set<Path>) {
    && Lists(dirs, candidates)
    && forall i :: 0 <= i < |dirs| ==>
         dirs[i] in candidates && dirs[i] !in Firsts(dirs, i)
         && forall q :: q in candidates && dirs[i] < q ==> q in Firsts(dirs, i)
  }

  lemma NoneDone(t: Tree, stuck: set<Path>, candidates: set<Path>, dirs: seq<Path>)
    ensures t == Partly(t, stuck, candidates, Firsts(dirs, 0))
    ensures AllFound(t, stuck, candidates, Firsts(dirs, 0)) == {}
  {
  }

  lemma AllDone(t: Tree, stuck: set<Path>, candidates: set<Path>, dirs: seq<Path>)
    requires Lists(dirs, candidates)
    ensures Partly(t, stuck, candidates, Firsts(dirs, |dirs|)) == Purged(t, stuck, candidates)
    ensures Firsts(dirs, |dirs|) == candidates
  {
    assert dirs[..|dirs|] == dirs;
  }

  lemma AreCandidates(paths: seq<Option<Path>>, root: Option<Path>, candidates: set<Path>)
    requires forall d :: d in candidates <==> IsCandidate(paths, root, d)
    ensures candidates == CandidateSet(paths, root)
  {
    forall d ensures d in candidates <==> d in CandidateSet(paths, root) {
      CandidateSetIs(paths, root, d);
    }
  }

  lemma SortedIsGood(paths: seq<Option<Path>>, root: Option<Path>, dirs: seq<Path>)
    requires AllCleaned(paths) && Lists(dirs, CandidateSet(paths, root)) && LongestFirst(dirs)
    ensures GoodOrder(dirs, CandidateSet(paths, root))
  {
    forall i | 0 <= i < |dirs|
      ensures dirs[i] in CandidateSet(paths, root) && dirs[i] !in Firsts(dirs, i)
      ensures forall q :: q in CandidateSet(paths, root) && dirs[i] < q ==> q in Firsts(dirs, i)
    {
      forall q | q in CandidateSet(paths, root) && dirs[i] < q ensures q in Firsts(dirs, i) {
        CandidateSetIs(paths, root, q);
        CandidatesCleaned(paths, root, q);
        BelowComesFirst(dirs, i, q);
      }
    }
  }

  // ---------------------------------------------------------------- what the pass leaves

  /** One pass is enough: a surviving candidate is an empty directory exactly when it was
      found empty and could not be removed. */
  lemma NothingEmptyLeft(t: Tree, stuck: set<Path>, candidates: set<Path>, dir: Path)
    requires Rooted(t) && dir in candidates
    ensures IsEmptyDir(Purged(t, stuck, candidates), dir) <==> FoundEmpty(t, stuck, candidates, dir) && dir in stuck
  {
    var now := Purged(t, stuck, candidates);
    if FoundEmpty(t, stuck, candidates, dir) {
      forall q | q in t && q != [] && Parent(q) == dir ensures q !in now {
        assert dir < q && Doomed(t, stuck, candidates, q);
      }
    } else if IsDir(now, dir) {
      var child := WhyNotEmpty(t, stuck, candidates, dir);
      assert child in now;
    }
  }

  /** A second pass removes nothing more. */
  lemma PurgeIdempotent(t: Tree, stuck: set<Path>, candidates: set<Path>)
    ensures Purged(Purged(t, stuck, candidates), stuck, candidates) == Purged(t, stuck, candidates)
  {
    var now := Purged(t, stuck, candidates);
    forall p | p in now && p in candidates && t[p] == Dir && p !in stuck ensures !Doomed(now, stuck, candidates, p) {
      var q :| q in t && p < q && !(q in candidates && t[q] == Dir && q !in stuck);
      assert q in now;
    }
  }

  /** Files stay, and what goes was a directory above a deleted path, at or below root. */
  lemma OnlyEmptyAncestorsGo(t: Tree, stuck: set<Path>, paths: seq<Option<Path>>, root: Option<Path>, p: Path)
    requires p in t && p !in Purged(t, stuck, CandidateSet(paths, root))
    ensures t[p] == Dir && Under(root, p) && p !in stuck
    ensures exists i :: 0 <= i < |paths| && paths[i].Some? && Above(p, Parent(paths[i].value))
    ensures forall q :: q in t && p < q ==> t[q] == Dir
  {
    CandidateSetIs(paths, root, p);
  }

  // ---------------------------------------------------------------- the number returned

  /** The directories counted that could not be removed. */
  function Stayed(t: Tree, stuck: set<Path>, candidates: set<Path>): set<Path> {
    AllFound(t, stuck, candidates, candidates) * stuck
  }

  /** The number returned is the number removed and those that were found empty and stayed,
      so it is the number removed exactly when every directory found empty could be removed. */
  lemma CountIsRemoved(t: Tree, stuck: set<Path>, candidates: set<Path>)
    ensures var found, gone := AllFound(t, stuck, candidates, candidates), t.Keys - Purged(t, stuck, candidates).Keys;
            && |found| == |gone| + |Stayed(t, stuck, candidates)|
            && (|found| == |gone| <==>
                  forall d :: d in candidates && FoundEmpty(t, stuck, candidates, d) ==> d !in stuck)
  {
    var found, gone := AllFound(t, stuck, candidates, candidates), t.Keys - Purged(t, stuck, candidates).Keys;
    var stayed := Stayed(t, stuck, candidates);
    assert found == gone + stayed && gone !! stayed;
    if stayed == {} {
      forall d | d in candidates && FoundEmpty(t, stuck, candidates, d) ensures d !in stuck {
        assert d in found;
      }
    } else {
      var d :| d in stayed;
      assert FoundEmpty(t, stuck, candidates, d);
    }
  }

  /** The folder that a deleted file leaves empty cannot be removed: one is returned, and
      nothing was removed. */
  lemma StuckIsCounted()
    ensures var t, stuck := map[[] := Dir, ["a"] := Dir], {["a"]};
            var candidates := CandidateSet([Some(["a", "b"])], Some(["a"]));
            && Rooted(t) && Purged(t, stuck, candidates) == t
            && |AllFound(t, stuck, candidates, candidates)| == 1
  {
    var t, stuck := map[[] := Dir, ["a"] := Dir], {["a"]};
    var paths := [Some(["a", "b"])];
    var candidates := CandidateSet(paths, Some(["a"]));
    forall d ensures d in candidates <==> d == ["a"] {
      CandidateSetIs(paths, Some(["a"]), d);
      assert Parent(paths[0].value) == ["a"];
      if Above(d, ["a"]) && Above(["a"], d) {
        Between(["a"]);
      }
    }
    assert candidates == {["a"]};
    assert FoundEmpty(t, stuck, candidates, ["a"]);
    assert AllFound(t, stuck, candidates, candidates) == {["a"]};
  }
}
