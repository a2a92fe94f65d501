/** A small file tree: what purging and clearing remnants need of a disk. A path is the
    list of its components from the top, so "/a/b" is ["a", "b"] and "/" is []. */
module FileTree {

  type Path = seq<string>

  /** A file is its content; content also stands for a link or any other non-directory. */
  datatype Node = Dir | File(content: int)

  type Tree = map<Path, Node>

  function Parent(p: Path): Path {
    if p == [] then [] else p[..|p| - 1]
  }

  /** Everything but the top lies in a directory of the tree. */
  predicate Rooted(t: Tree) {
    forall p :: p in t && p != [] ==> Parent(p) in t && t[Parent(p)] == Dir
  }

  predicate IsDir(t: Tree, p: Path) {
    p in t && t[p] == Dir
  }

  /** A directory with nothing in it. */
  predicate IsEmptyDir(t: Tree, p: Path) {
    IsDir(t, p) && forall q :: q in t && q != [] ==> Parent(q) != p
  }

  /** The tree without p and everything below it. */
  function Removed(t: Tree, p: Path): Tree {
    map q | q in t && !(p <= q) :: t[q]
  }

  /** p is, or lies above, a place of the tree that cannot be removed. */
  predicate Pinned(t: Tree, stuck: set<Path>, p: Path) {
    exists s :: s in stuck && s in t && p <= s
  }

  /** os.RemoveAll: everything at and below p goes, but what is pinned. It succeeds when p
      is not pinned. */
  function RemovedBut(t: Tree, stuck: set<Path>, p: Path): Tree {
    map q | q in t && (!(p <= q) || Pinned(t, stuck, q)) :: t[q]
  }

  function RemovedEach(t: Tree, stuck: set<Path>, paths: seq<Path>): Tree {
    if paths == [] then t else RemovedBut(RemovedEach(t, stuck, paths[..|paths| - 1]), stuck, paths[|paths| - 1])
  }

  lemma PrefixLength<T>(p: seq<T>, q: seq<T>)
    requires p < q
    ensures |p| < |q| && p == q[..|p|] && p <= q[..|q| - 1]
  {
  }

  /** Everything above something in the tree is a directory of the tree. */
  lemma {:induction false} AncestorsPresent(t: Tree, p: Path, q: Path)
    requires Rooted(t) && q in t && p < q
    ensures IsDir(t, p)
    decreases |q|
  {
    PrefixLength(p, q);
    if p != Parent(q) {
      AncestorsPresent(t, p, Parent(q));
    }
  }

  lemma OnlyItself(t: Tree, p: Path, q: Path)
    requires Rooted(t) && IsEmptyDir(t, p) && q in t && p <= q
    ensures q == p
  {
    if p != q {
      PrefixLength(p, q);
      var child := q[..|p| + 1];
      assert Parent(child) == p;
      if child != q {
        AncestorsPresent(t, child, q);
      }
    }
  }

  /** Removing an empty directory removes just that. */
  lemma RemovedEmpty(t: Tree, p: Path)
    requires Rooted(t) && IsEmptyDir(t, p)
    ensures Removed(t, p) == t - {p}
  {
    forall q | q in t && p <= q ensures q == p {
      OnlyItself(t, p, q);
    }
  }

  lemma PinnedStays(t: Tree, stuck: set<Path>, p: Path, q: Path)
    ensures Pinned(RemovedBut(t, stuck, p), stuck, q) == Pinned(t, stuck, q)
  {
    if Pinned(t, stuck, q) {
      var s :| s in stuck && s in t && q <= s;
      assert Pinned(t, stuck, s);
      assert s in RemovedBut(t, stuck, p);
    }
  }

  /** Without anything stuck at or below p, all of it goes. */
  lemma RemovesAll(t: Tree, stuck: set<Path>, p: Path)
    requires !Pinned(t, stuck, p)
    ensures RemovedBut(t, stuck, p) == Removed(t, p)
  {
    forall q | q in t && p <= q ensures !Pinned(t, stuck, q) {
    }
  }

  lemma RemovedButRooted(t: Tree, stuck: set<Path>, p: Path)
    requires Rooted(t)
    ensures Rooted(RemovedBut(t, stuck, p))
  {
    forall q | q in RemovedBut(t, stuck, p) && q != [] ensures Parent(q) in RemovedBut(t, stuck, p) {
      assert p <= Parent(q) ==> p <= q;
      assert Pinned(t, stuck, q) ==> Pinned(t, stuck, Parent(q));
    }
  }

  predicate Covered(paths: seq<Path>, p: Path) {
    exists i :: 0 <= i < |paths| && paths[i] <= p
  }

  lemma CoveredSnoc(init: seq<Path>, last: Path, p: Path)
    ensures Covered(init + [last], p) <==> Covered(init, p) || last <= p
  {
    var paths := init + [last];
    assert paths[|init|] == last && forall i :: 0 <= i < |init| ==> paths[i] == init[i];
  }

  /** Removing paths one after another, whatever fails on the way, removes exactly what is at
      or below one of them and not pinned. */
  lemma {:induction false} RemovedExactly(t: Tree, stuck: set<Path>, paths: seq<Path>, p: Path)
    ensures var now := RemovedEach(t, stuck, paths);
            && (p in now <==> p in t && (!Covered(paths, p) || Pinned(t, stuck, p)))
            && (p in now ==> now[p] == t[p]) && Pinned(now, stuck, p) == Pinned(t, stuck, p)
  {
    if paths != [] {
      var init, last := paths[..|paths| - 1], paths[|paths| - 1];
      assert paths == init + [last];
      CoveredSnoc(init, last, p);
      RemovedExactly(t, stuck, init, p);
      PinnedStays(RemovedEach(t, stuck, init), stuck, last, p);
    }
  }

  lemma {:induction false} RemovedEachRooted(t: Tree, stuck: set<Path>, paths: seq<Path>)
    requires Rooted(t)
    ensures Rooted(RemovedEach(t, stuck, paths))
  {
    if paths != [] {
      RemovedEachRooted(t, stuck, paths[..|paths| - 1]);
      RemovedButRooted(RemovedEach(t, stuck, paths[..|paths| - 1]), stuck, paths[|paths| - 1]);
    }
  }
}
