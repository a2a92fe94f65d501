/** handleRemnants of pkg/unpackerr/remnants.go: what is left of an interrupted extraction
    and blocks the next one is renamed or deleted, and what came with the download stays. */
module Remnants {

  import opened FileTree
  import opened Wrappers
  import FreshName

  const SUFFIX := ".remnant"
  const MAX_COPIES: nat := 999

  datatype Action = Rename | Delete | Off

  /** The disk's side of things: paths that cannot be looked up, and paths that cannot be
      renamed or removed. Removing a folder that holds a stuck path removes the rest. */
  datatype Refusals = Refusals(hidden: set<Path>, stuck: set<Path>)

  // ---------------------------------------------------------------- the new name

  function Candidate(path: Path, n: nat): Path
    requires path != []
  {
    Parent(path) + [path[|path| - 1] + SUFFIX + if n == 0 then "" else "." + FreshName.Decimal(n)]
  }

  function Ending(n: nat): string {
    if n == 0 then "" else "." + FreshName.Decimal(n)
  }

  lemma EndingsDiffer(m: nat, n: nat)
    requires Ending(m) == Ending(n)
    ensures m == n
  {
    if m > 0 && n > 0 {
      assert Ending(m)[1..] == FreshName.Decimal(m) && Ending(n)[1..] == FreshName.Decimal(n);
      FreshName.DecimalValue(m);
      FreshName.DecimalValue(n);
    }
  }

  /** The name that is tried n-th stands beside the blocker and is longer than its own. */
  lemma CandidateExactly(path: Path, n: nat)
    requires path != []
    ensures var own := path[|path| - 1];
            Candidate(path, n)
            == Parent(path) + [own + (".remnant" + if n == 0 then "" else "." + FreshName.Decimal(n))]
    ensures Parent(Candidate(path, n)) == Parent(path) && Candidate(path, n) != path
  {
    var own := path[|path| - 1];
    assert own + SUFFIX + Ending(n) == own + (SUFFIX + Ending(n));
  }

  /** The names that are tried are all different. */
  lemma CandidatesDiffer(path: Path, m: nat, n: nat)
    requires path != [] && Candidate(path, m) == Candidate(path, n)
    ensures m == n
  {
    var base := path[|path| - 1] + SUFFIX;
    var a, b := Candidate(path, m)[|path| - 1], Candidate(path, n)[|path| - 1];
    assert a == base + Ending(m) && b == base + Ending(n);
    assert a[|base|..] == Ending(m) && b[|base|..] == Ending(n);
    EndingsDiffer(m, n);
  }

  datatype Choice = Unused(target: Path) | LookupFailed | NoName

  function FirstUnused(t: Tree, r: Refusals, path: Path, n: nat): (c: Choice)
    requires path != []
    ensures c.Unused? ==> exists k :: n <= k < MAX_COPIES && c.target == Candidate(path, k)
    decreases MAX_COPIES - n
  {
    if n >= MAX_COPIES then NoName
    else if Candidate(path, n) in r.hidden then LookupFailed
    else if Candidate(path, n) !in t then Unused(Candidate(path, n))
    else FirstUnused(t, r, path, n + 1)
  }

  method UnusedRemnantPath(t: Tree, r: Refusals, path: Path) returns (choice: Choice)
    requires path != []
    ensures choice == FirstUnused(t, r, path, 0)
    ensures choice.Unused? ==> choice.target !in t
  {
    for n := 0 to MAX_COPIES
      invariant FirstUnused(t, r, path, n) == FirstUnused(t, r, path, 0)
    {
      var candidate := Candidate(path, n);
      if candidate in r.hidden {
        return LookupFailed;
      }
      if candidate !in t {
        return Unused(candidate);
      }
    }
    return NoName;
  }

  lemma {:induction false} UnusedIsFree(t: Tree, r: Refusals, path: Path, n: nat)
    requires path != []
    ensures var c := FirstUnused(t, r, path, n);
            c.Unused? ==> c.target !in t && c.target !in r.hidden
    decreases MAX_COPIES - n
  {
    if n < MAX_COPIES {
      UnusedIsFree(t, r, path, n + 1);
    }
  }

  /** A new name is a sibling, different from the path and neither above nor below it. */
  lemma CandidateBeside(path: Path, n: nat)
    requires path != []
    ensures var c := Candidate(path, n);
            Parent(c) == Parent(path) && |c| == |path| && c != path && !(path <= c) && !(c <= path)
  {
    var c := Candidate(path, n);
    assert |c[|path| - 1]| > |path[|path| - 1]|;
  }

  // ---------------------------------------------------------------- moving a subtree

  function MovedPath(from: Path, to: Path, q: Path): Path {
    if from <= q then to + q[|from|..] else q
  }

  /** The tree with what is at and below `from` now at and below `to`. */
  function Moved(t: Tree, from: Path, to: Path): Tree {
    map p | p in t.Keys + MovedPaths(t, from, to) && !(from <= p)
    :: if to <= p then At(t, from + p[|to|..]) else At(t, p)
  }

  function MovedPaths(t: Tree, from: Path, to: Path): set<Path> {
    set q | q in t && from <= q :: to + q[|from|..]
  }

  function At(t: Tree, p: Path): Node {
    if p in t then t[p] else Dir
  }

  /** m says where everything went: nothing lost, nothing on top of anything else. */
  predicate Conserved(t: Tree, now: Tree, m: map<Path, Path>) {
    && m.Keys == t.Keys
    && (forall p :: p in m ==> m[p] in now && now[m[p]] == t[p])
    && (forall p, q :: p in m && q in m && m[p] == m[q] ==> p == q)
    && (forall c :: c in now ==> exists p :: p in m && m[p] == c)
  }

  predicate Free(t: Tree, to: Path) {
    forall q :: q in t ==> !(to <= q)
  }

  predicate Beside(from: Path, to: Path) {
    !(from <= to) && !(to <= from)
  }

  lemma Regrown(from: Path, to: Path, q: Path)
    requires from <= q && Beside(from, to)
    ensures var c := to + q[|from|..]; to <= c && !(from <= c) && from + c[|to|..] == q
  {
    var c := to + q[|from|..];
    assert c[..|to|] == to;
    assert from <= c ==> from <= to || to <= from;
  }

  /** Where one path goes in a move. */
  lemma MoveOne(t: Tree, from: Path, to: Path, q: Path)
    requires q in t && Free(t, to) && Beside(from, to)
    ensures var c := MovedPath(from, to, q); c in Moved(t, from, to) && Moved(t, from, to)[c] == t[q]
  {
    if from <= q {
      Regrown(from, to, q);
    }
  }

  lemma MoveInjective(t: Tree, from: Path, to: Path, p: Path, q: Path)
    requires p in t && q in t && Free(t, to) && Beside(from, to) && MovedPath(from, to, p) == MovedPath(from, to, q)
    ensures p == q
  {
    if from <= p {
      Regrown(from, to, p);
    }
    if from <= q {
      Regrown(from, to, q);
    }
  }

  lemma MoveOnto(t: Tree, from: Path, to: Path, c: Path) returns (q: Path)
    requires c in Moved(t, from, to)
    ensures q in t && MovedPath(from, to, q) == c
  {
    if c in t {
      q := c;
    } else {
      q :| q in t && from <= q && to + q[|from|..] == c;
    }
  }

  /** Renaming to a free name beside it conserves the tree. */
  lemma MoveConserves(t: Tree, from: Path, to: Path) returns (m: map<Path, Path>)
    requires Free(t, to) && Beside(from, to)
    ensures Conserved(t, Moved(t, from, to), m)
    ensures forall q :: q in m ==> m[q] == MovedPath(from, to, q)
  {
    m := map q | q in t :: MovedPath(from, to, q);
    forall q | q in m ensures m[q] in Moved(t, from, to) && Moved(t, from, to)[m[q]] == t[q] {
      MoveOne(t, from, to, q);
    }
    forall p, q | p in m && q in m && m[p] == m[q] ensures p == q {
      MoveInjective(t, from, to, p, q);
    }
    forall c | c in Moved(t, from, to) ensures exists p :: p in m && m[p] == c {
      var p := MoveOnto(t, from, to, c);
      assert p in m && m[p] == c;
    }
  }

  lemma MovedRooted(t: Tree, from: Path, to: Path)
    requires Rooted(t) && from in t && from != [] && to != []
    requires Parent(to) == Parent(from) && Free(t, to) && Beside(from, to)
    ensures Rooted(Moved(t, from, to))
  {
    var now := Moved(t, from, to);
    forall c | c in now && c != [] ensures Parent(c) in now && now[Parent(c)] == Dir {
      var q := MoveOnto(t, from, to, c);
      assert q != [] && Parent(q) in t;
      MoveOne(t, from, to, Parent(q));
      ParentMoves(from, to, q);
    }
  }

  lemma ParentMoves(from: Path, to: Path, q: Path)
    requires q != [] && from != [] && to != [] && Parent(to) == Parent(from)
    ensures Parent(MovedPath(from, to, q)) == MovedPath(from, to, Parent(q)) || q == from
    ensures q == from ==> Parent(MovedPath(from, to, q)) == Parent(q) && MovedPath(from, to, Parent(q)) == Parent(q)
  {
    if from <= q && q != from {
      PrefixLength(from, q);
      assert q[|from|..] == q[..|q| - 1][|from|..] + [q[|q| - 1]];
    } else if q == from {
      assert q[|from|..] == [];
    } else {
      assert from <= Parent(q) ==> from <= q;
    }
  }

  lemma FreeWhenAbsent(t: Tree, to: Path)
    requires Rooted(t) && to !in t
    ensures Free(t, to)
  {
    forall q | q in t ensures !(to <= q) {
      if to <= q && to != q {
        AncestorsPresent(t, to, q);
      }
    }
  }

  function Through(m: map<Path, Path>, n: map<Path, Path>): map<Path, Path>
    requires forall p :: p in m ==> m[p] in n
  {
    map p | p in m :: n[m[p]]
  }

  lemma ConservedThen(a: Tree, b: Tree, c: Tree, m: map<Path, Path>, n: map<Path, Path>)
    requires Conserved(a, b, m) && Conserved(b, c, n)
    ensures (forall p :: p in m ==> m[p] in n) && Conserved(a, c, Through(m, n))
  {
    var mn := Through(m, n);
    forall x | x in c ensures exists p :: p in mn && mn[p] == x {
      var y :| y in n && n[y] == x;
      var p :| p in m && m[p] == y;
      assert p in mn && mn[p] == x;
    }
    forall p, q | p in mn && q in mn && mn[p] == mn[q] ensures p == q {
      assert m[p] == m[q];
    }
  }

  // ---------------------------------------------------------------- clearing

  datatype Turn = Turn(tree: Tree, cleared: bool)

  function ClearOne(t: Tree, r: Refusals, action: Action, dest: Path): Turn
    requires dest != []
  {
    if dest in r.hidden then Turn(t, false)
    else if dest !in t then Turn(t, true)
    else if action == Delete then
      Turn(RemovedBut(t, r.stuck, dest), !Pinned(t, r.stuck, dest))
    else
      match FirstUnused(t, r, dest, 0)
      case Unused(target) => if dest in r.stuck then Turn(t, false) else Turn(Moved(t, dest, target), true)
      case _ => Turn(t, false)
  }

  datatype Pass = Pass(tree: Tree, cleared: nat)

  predicate Named(dests: seq<Path>) {
    forall i :: 0 <= i < |dests| ==> dests[i] != []
  }

  function ClearAll(t: Tree, r: Refusals, action: Action, dests: seq<Path>): (p: Pass)
    requires Named(dests)
    ensures p.cleared <= |dests|
  {
    if dests == [] then Pass(t, 0)
    else
      var before := ClearAll(t, r, action, dests[..|dests| - 1]);
      var turn := ClearOne(before.tree, r, action, dests[|dests| - 1]);
      Pass(turn.tree, before.cleared + if turn.cleared then 1 else 0)
  }

  lemma TargetFacts(t: Tree, r: Refusals, dest: Path)
    requires Rooted(t) && dest != [] && FirstUnused(t, r, dest, 0).Unused?
    ensures var to := FirstUnused(t, r, dest, 0).target;
            && to !in t && Free(t, to) && Beside(dest, to) && to != [] && Parent(to) == Parent(dest)
            && exists n :: 0 <= n < MAX_COPIES && to == Candidate(dest, n)
  {
    var to := FirstUnused(t, r, dest, 0).target;
    UnusedIsFree(t, r, dest, 0);
    FreeWhenAbsent(t, to);
    var n :| 0 <= n < MAX_COPIES && to == Candidate(dest, n);
    CandidateBeside(dest, n);
  }

  function Same(t: Tree): map<Path, Path> {
    map p | p in t :: p
  }

  /** Clearing one blocker by renaming conserves the tree, and moves only what is at or
      below the blocker. */
  lemma ClearOneConserves(t: Tree, r: Refusals, action: Action, dest: Path) returns (m: map<Path, Path>)
    requires Rooted(t) && dest != [] && action != Delete
    ensures Rooted(ClearOne(t, r, action, dest).tree) && Conserved(t, ClearOne(t, r, action, dest).tree, m)
    ensures forall p :: p in m && !(dest <= p) ==> m[p] == p
  {
    m := Same(t);
    var choice := FirstUnused(t, r, dest, 0);
    if dest !in r.hidden && dest in t && choice.Unused? && dest !in r.stuck {
      TargetFacts(t, r, dest);
      m := MoveConserves(t, dest, choice.target);
      MovedRooted(t, dest, choice.target);
    }
  }

  /** In rename mode a whole pass loses nothing and overwrites nothing, whatever fails on
      the way, and what no blocker is above stays where it is. */
  lemma {:induction false} ClearAllConserves(t: Tree, r: Refusals, action: Action, dests: seq<Path>)
    returns (m: map<Path, Path>)
    requires Rooted(t) && Named(dests) && action != Delete
    ensures Rooted(ClearAll(t, r, action, dests).tree) && Conserved(t, ClearAll(t, r, action, dests).tree, m)
    ensures forall p :: p in m && !Covered(dests, p) ==> m[p] == p
  {
    if dests == [] {
      m := Same(t);
    } else {
      var init, last := dests[..|dests| - 1], dests[|dests| - 1];
      var before := ClearAllConserves(t, r, action, init);
      var now := ClearAll(t, r, action, init).tree;
      var step := ClearOneConserves(now, r, action, last);
      ConservedThen(t, now, ClearAll(t, r, action, dests).tree, before, step);
      m := Through(before, step);
      forall p | p in m && !Covered(dests, p) ensures m[p] == p {
        NotCoveredInit(dests, p);
      }
    }
  }

  lemma NotCoveredInit(dests: seq<Path>, p: Path)
    requires dests != [] && !Covered(dests, p)
    ensures !Covered(dests[..|dests| - 1], p) && !(dests[|dests| - 1] <= p)
  {
    assert forall i :: 0 <= i < |dests| - 1 ==> dests[..|dests| - 1][i] == dests[i];
  }

  lemma ClearOneRooted(t: Tree, r: Refusals, action: Action, dest: Path)
    requires Rooted(t) && dest != []
    ensures Rooted(ClearOne(t, r, action, dest).tree)
  {
    if action == Delete {
      RemovedButRooted(t, r.stuck, dest);
    } else {
      var m := ClearOneConserves(t, r, action, dest);
    }
  }

  // ---------------------------------------------------------------- the turns of a pass

  /** The tree before turn k, and after the last turn. */
  function TreeBefore(t: Tree, r: Refusals, action: Action, dests: seq<Path>, k: nat): Tree
    requires Named(dests) && k <= |dests|
  {
    if k == 0 then t else ClearOne(TreeBefore(t, r, action, dests, k - 1), r, action, dests[k - 1]).tree
  }

  lemma {:induction false} TreeBeforeInit(t: Tree, r: Refusals, action: Action, dests: seq<Path>, k: nat)
    requires Named(dests) && k < |dests|
    ensures TreeBefore(t, r, action, dests, k) == TreeBefore(t, r, action, dests[..|dests| - 1], k)
  {
    if k > 0 {
      TreeBeforeInit(t, r, action, dests, k - 1);
      assert dests[..|dests| - 1][k - 1] == dests[k - 1];
    }
  }

  lemma {:induction false} PassIsTurns(t: Tree, r: Refusals, action: Action, dests: seq<Path>)
    requires Named(dests)
    ensures ClearAll(t, r, action, dests).tree == TreeBefore(t, r, action, dests, |dests|)
  {
    if dests != [] {
      PassIsTurns(t, r, action, dests[..|dests| - 1]);
      TreeBeforeInit(t, r, action, dests, |dests| - 1);
    }
  }

  lemma {:induction false} TreeRooted(t: Tree, r: Refusals, action: Action, dests: seq<Path>, k: nat)
    requires Rooted(t) && Named(dests) && k <= |dests|
    ensures Rooted(TreeBefore(t, r, action, dests, k))
  {
    if k > 0 {
      TreeRooted(t, r, action, dests, k - 1);
      ClearOneRooted(TreeBefore(t, r, action, dests, k - 1), r, action, dests[k - 1]);
    }
  }

  /** With a full count every turn cleared its blocker. */
  lemma {:induction false} AllCleared(t: Tree, r: Refusals, action: Action, dests: seq<Path>, k: nat)
    requires Named(dests) && ClearAll(t, r, action, dests).cleared == |dests| && k < |dests|
    ensures ClearOne(TreeBefore(t, r, action, dests, k), r, action, dests[k]).cleared
  {
    var init := dests[..|dests| - 1];
    if k < |init| {
      AllCleared(t, r, action, init, k);
      TreeBeforeInit(t, r, action, dests, k);
      assert init[k] == dests[k];
    } else {
      PassIsTurns(t, r, action, init);
      TreeBeforeInit(t, r, action, dests, k);
      assert init == dests[..k];
    }
  }

  // ---------------------------------------------------------------- deleting

  /** In delete mode exactly what is at or below a blocker that could be looked up goes, but
      for what is stuck and the folders above that. */
  lemma {:induction false} ClearAllDeletes(t: Tree, r: Refusals, dests: seq<Path>, p: Path)
    requires Rooted(t) && Named(dests)
    ensures var now := ClearAll(t, r, Delete, dests).tree;
            && (p in now <==> p in t && (Pinned(t, r.stuck, p) || !Covered(Visible(dests, r), p)))
            && (p in now ==> now[p] == t[p]) && Pinned(now, r.stuck, p) == Pinned(t, r.stuck, p) && Rooted(now)
  {
    if dests != [] {
      var init, last := dests[..|dests| - 1], dests[|dests| - 1];
      ClearAllDeletes(t, r, init, p);
      var now := ClearAll(t, r, Delete, init).tree;
      ClearOneRooted(now, r, Delete, last);
      DeleteOne(now, r, last, p);
      CoveredSnoc(Visible(init, r), last, p);
    }
  }

  function Visible(dests: seq<Path>, r: Refusals): seq<Path> {
    if dests == [] then []
    else if dests[|dests| - 1] in r.hidden then Visible(dests[..|dests| - 1], r)
    else Visible(dests[..|dests| - 1], r) + [dests[|dests| - 1]]
  }

  lemma {:induction false} VisibleCovers(dests: seq<Path>, r: Refusals, p: Path)
    requires Covered(Visible(dests, r), p)
    ensures Covered(dests, p)
  {
    if dests != [] {
      var init, last := dests[..|dests| - 1], dests[|dests| - 1];
      assert dests == init + [last];
      CoveredSnoc(init, last, p);
      CoveredSnoc(Visible(init, r), last, p);
      if Covered(Visible(init, r), p) {
        VisibleCovers(init, r, p);
      }
    }
  }

  lemma DeleteOne(t: Tree, r: Refusals, dest: Path, p: Path)
    requires Rooted(t) && dest != []
    ensures var now := ClearOne(t, r, Delete, dest).tree;
            && (p in now <==> p in t && (dest in r.hidden || !(dest <= p) || Pinned(t, r.stuck, p)))
            && (p in now ==> now[p] == t[p]) && Pinned(now, r.stuck, p) == Pinned(t, r.stuck, p)
  {
    if dest in t {
      PinnedStays(t, r.stuck, dest, p);
    } else {
      FreeWhenAbsent(t, dest);
    }
  }

  /** and a full count means that no blocker is left. */
  lemma DeletedMeansGone(t: Tree, r: Refusals, dests: seq<Path>, i: nat)
    requires Rooted(t) && Named(dests) && i < |dests| && ClearAll(t, r, Delete, dests).cleared == |dests|
    ensures dests[i] !in ClearAll(t, r, Delete, dests).tree
  {
    var d := dests[i];
    AllCleared(t, r, Delete, dests, i);
    var now := TreeBefore(t, r, Delete, dests, i);
    TreeRooted(t, r, Delete, dests, i);
    DeletedStays(t, r, dests, d, i + 1, |dests|);
    PassIsTurns(t, r, Delete, dests);
  }

  lemma {:induction false} DeletedStays(t: Tree, r: Refusals, dests: seq<Path>, d: Path, k: nat, n: nat)
    requires Rooted(t) && Named(dests) && k <= n <= |dests| && d !in TreeBefore(t, r, Delete, dests, k)
    ensures d !in TreeBefore(t, r, Delete, dests, n)
    decreases n
  {
    if k < n {
      DeletedStays(t, r, dests, d, k, n - 1);
      TreeRooted(t, r, Delete, dests, n - 1);
      DeleteOne(TreeBefore(t, r, Delete, dests, n - 1), r, dests[n - 1], d);
    }
  }

  // ---------------------------------------------------------------- renaming

  /** In rename mode a turn moves its blocker, or does nothing. */
  predicate Moves(t: Tree, r: Refusals, dest: Path)
    requires dest != []
  {
    dest !in r.hidden && dest in t && dest !in r.stuck && FirstUnused(t, r, dest, 0).Unused?
  }

  /** A turn takes d away with its blocker. */
  predicate TakesAway(t: Tree, r: Refusals, dest: Path, d: Path)
    requires dest != []
  {
    Moves(t, r, dest) && dest <= d
  }

  /** A turn brings something to d: the new name is d or above it, and what moves has that
      place. */
  predicate PutsAt(t: Tree, r: Refusals, dest: Path, d: Path)
    requires dest != []
  {
    Moves(t, r, dest) && var to := FirstUnused(t, r, dest, 0).target; to <= d && dest + d[|to|..] in t
  }

  lemma MovedHas(t: Tree, from: Path, to: Path, d: Path)
    requires Free(t, to) && Beside(from, to)
    ensures d in Moved(t, from, to) <==> (d in t && !(from <= d)) || (to <= d && from + d[|to|..] in t)
  {
    if d in Moved(t, from, to) {
      var q := MoveOnto(t, from, to, d);
      if from <= q {
        Regrown(from, to, q);
      }
    } else if to <= d && from + d[|to|..] in t {
      var q := from + d[|to|..];
      assert q[|from|..] == d[|to|..] && to + d[|to|..] == d;
      MoveOne(t, from, to, q);
    } else if d in t && !(from <= d) {
      MoveOne(t, from, to, d);
    }
  }

  /** What is there after a turn. */
  lemma TurnHas(t: Tree, r: Refusals, action: Action, dest: Path, d: Path)
    requires Rooted(t) && dest != [] && action != Delete
    ensures d in ClearOne(t, r, action, dest).tree <==> PutsAt(t, r, dest, d) || (d in t && !TakesAway(t, r, dest, d))
    ensures ClearOne(t, r, action, dest).cleared ==> dest !in ClearOne(t, r, action, dest).tree
  {
    if Moves(t, r, dest) {
      TargetFacts(t, r, dest);
      MovedHas(t, dest, FirstUnused(t, r, dest, 0).target, d);
      MovedHas(t, dest, FirstUnused(t, r, dest, 0).target, dest);
    }
  }

  /** The turns that take d away, and those that put something there. */
  function Takes(t: Tree, r: Refusals, action: Action, dests: seq<Path>, d: Path): nat -> bool
    requires Named(dests)
  {
    (k: nat) => k < |dests| && TakesAway(TreeBefore(t, r, action, dests, k), r, dests[k], d)
  }

  function Puts(t: Tree, r: Refusals, action: Action, dests: seq<Path>, d: Path): nat -> bool
    requires Named(dests)
  {
    (k: nat) => k < |dests| && PutsAt(TreeBefore(t, r, action, dests, k), r, dests[k], d)
  }

  /** No turn from k to before n takes it away. */
  predicate Left(takes: nat -> bool, k: nat, n: nat) {
    forall l :: k <= l < n ==> !takes(l)
  }

  /** Some turn from m to before n puts it back, and none after that takes it away again. */
  predicate CameBack(puts: nat -> bool, takes: nat -> bool, m: nat, n: nat) {
    exists k :: m <= k < n && puts(k) && Left(takes, k + 1, n)
  }

  lemma CameEarlier(puts: nat -> bool, takes: nat -> bool, m: nat, n: nat)
    requires CameBack(puts, takes, m, n + 1) && !puts(n)
    ensures CameBack(puts, takes, m, n) && !takes(n)
  {
    var k :| m <= k < n + 1 && puts(k) && Left(takes, k + 1, n + 1);
    assert k < n && Left(takes, k + 1, n);
  }

  lemma CameStill(puts: nat -> bool, takes: nat -> bool, m: nat, n: nat)
    requires CameBack(puts, takes, m, n) && !takes(n)
    ensures CameBack(puts, takes, m, n + 1)
  {
    var k :| m <= k < n && puts(k) && Left(takes, k + 1, n);
    assert Left(takes, k + 1, n + 1);
  }

  lemma OneTurnMore(puts: nat -> bool, takes: nat -> bool, m: nat, n: nat)
    requires m <= n
    ensures Left(takes, m, n + 1) <==> Left(takes, m, n) && !takes(n)
    ensures CameBack(puts, takes, m, n + 1) <==> puts(n) || (CameBack(puts, takes, m, n) && !takes(n))
  {
    if puts(n) {
      assert Left(takes, n + 1, n + 1);
    } else {
      if CameBack(puts, takes, m, n) && !takes(n) {
        CameStill(puts, takes, m, n);
      }
      if CameBack(puts, takes, m, n + 1) {
        CameEarlier(puts, takes, m, n);
      }
    }
  }

  lemma {:induction false} LastTold(has: nat -> bool, puts: nat -> bool, takes: nat -> bool, m: nat, n: nat)
    requires m <= n && forall k: nat :: m <= k < n ==> Told(has, puts, takes, k)
    ensures has(n) <==> CameBack(puts, takes, m, n) || (has(m) && Left(takes, m, n))
    decreases n
  {
    if m < n {
      LastTold(has, puts, takes, m, n - 1);
      OneTurnMore(puts, takes, m, n - 1);
      assert Told(has, puts, takes, n - 1);
    }
  }

  predicate Told(has: nat -> bool, puts: nat -> bool, takes: nat -> bool, k: nat) {
    has(k + 1) <==> puts(k) || (has(k) && !takes(k))
  }

  /** Whether d is there before each turn. */
  function Has(t: Tree, r: Refusals, action: Action, dests: seq<Path>, d: Path): nat -> bool
    requires Named(dests)
  {
    (k: nat) => k <= |dests| && d in TreeBefore(t, r, action, dests, k)
  }

  lemma TurnTold(t: Tree, r: Refusals, action: Action, dests: seq<Path>, k: nat, d: Path)
    requires Rooted(t) && Named(dests) && action != Delete && k < |dests|
    ensures Told(Has(t, r, action, dests, d), Puts(t, r, action, dests, d), Takes(t, r, action, dests, d), k)
  {
    TreeRooted(t, r, action, dests, k);
    TurnHas(TreeBefore(t, r, action, dests, k), r, action, dests[k], d);
  }

  /** What is there at the end, told from what was there before turn m. */
  lemma TurnsHave(t: Tree, r: Refusals, action: Action, dests: seq<Path>, m: nat, d: Path)
    requires Rooted(t) && Named(dests) && action != Delete && m <= |dests|
    ensures var puts, takes := Puts(t, r, action, dests, d), Takes(t, r, action, dests, d);
            d in ClearAll(t, r, action, dests).tree
            <==> CameBack(puts, takes, m, |dests|)
                 || (d in TreeBefore(t, r, action, dests, m) && Left(takes, m, |dests|))
  {
    var has, puts, takes := Has(t, r, action, dests, d), Puts(t, r, action, dests, d), Takes(t, r, action, dests, d);
    forall k: nat | m <= k < |dests| ensures Told(has, puts, takes, k) {
      TurnTold(t, r, action, dests, k, d);
    }
    LastTold(has, puts, takes, m, |dests|);
    PassIsTurns(t, r, action, dests);
  }

  /** A turn from m on puts d back, and no still later turn takes it away. */
  predicate BackFrom(t: Tree, r: Refusals, action: Action, dests: seq<Path>, m: nat, d: Path)
    requires Named(dests)
  {
    CameBack(Puts(t, r, action, dests, d), Takes(t, r, action, dests, d), m, |dests|)
  }

  /** What is not there before turn m is there at the end exactly when it was put back. */
  lemma AbsentThenBack(t: Tree, r: Refusals, action: Action, dests: seq<Path>, m: nat, d: Path)
    requires Rooted(t) && Named(dests) && action != Delete && m <= |dests| && d !in TreeBefore(t, r, action, dests, m)
    ensures d in ClearAll(t, r, action, dests).tree <==> BackFrom(t, r, action, dests, m, d)
  {
    TurnsHave(t, r, action, dests, m, d);
  }

  lemma TurnClears(t: Tree, r: Refusals, action: Action, dests: seq<Path>, i: nat, m: nat)
    requires Rooted(t) && Named(dests) && i < |dests| && m == i + 1 && action != Delete
    requires ClearAll(t, r, action, dests).cleared == |dests|
    ensures dests[i] !in TreeBefore(t, r, action, dests, m)
  {
    AllCleared(t, r, action, dests, i);
    TreeRooted(t, r, action, dests, i);
    TurnHas(TreeBefore(t, r, action, dests, i), r, action, dests[i], dests[i]);
  }

  /** A turn after turn i puts its blocker back, and no still later turn takes it away. */
  predicate PutBack(t: Tree, r: Refusals, action: Action, dests: seq<Path>, i: nat)
    requires Named(dests) && i < |dests|
  {
    BackFrom(t, r, action, dests, i + 1, dests[i])
  }

  /** When every blocker counts as cleared, a blocker is in the way again exactly when it
      was renamed and a later turn put it back for good. */
  lemma ClearedMeansGone(t: Tree, r: Refusals, action: Action, dests: seq<Path>, i: nat)
    requires Rooted(t) && Named(dests) && i < |dests| && ClearAll(t, r, action, dests).cleared == |dests|
    ensures dests[i] in ClearAll(t, r, action, dests).tree <==> action != Delete && PutBack(t, r, action, dests, i)
  {
    if action == Delete {
      DeletedMeansGone(t, r, dests, i);
    } else {
      TurnClears(t, r, action, dests, i, i + 1);
      AbsentThenBack(t, r, action, dests, i + 1, dests[i]);
    }
  }

  lemma FirstCandidate(name: string)
    ensures Candidate([name], 0) == [name + SUFFIX]
  {
    assert name + SUFFIX + "" == name + SUFFIX;
  }

  /** The condition matters: with x.remnant and x both refused, in that order, both count as
      cleared, and the extraction finds x.remnant in its way again. */
  lemma RenamedBackInTheWay()
    ensures var t: Tree := map[[] := Dir, ["x"] := File(1), ["x.remnant"] := File(2)];
            var dests: seq<Path> := [["x.remnant"], ["x"]];
            var pass := ClearAll(t, Refusals({}, {}), Rename, dests);
            Rooted(t) && pass.cleared == |dests| && dests[0] in pass.tree
  {
    var t: Tree := map[[] := Dir, ["x"] := File(1), ["x.remnant"] := File(2)];
    var r := Refusals({}, {});
    assert "x" + SUFFIX == "x.remnant" && "x.remnant" + SUFFIX == "x.remnant.remnant";
    RenamedOnce(t, "x.remnant", "x");
    var next := ClearOne(t, r, Rename, ["x.remnant"]).tree;
    RenamedOnce(next, "x", "x");
    ClearTwo(t, r, Rename, ["x.remnant"], ["x"]);
  }

  lemma ClearTwo(t: Tree, r: Refusals, action: Action, a: Path, b: Path)
    requires a != [] && b != []
    ensures var first := ClearOne(t, r, action, a);
            var second := ClearOne(first.tree, r, action, b);
            ClearAll(t, r, action, [a, b])
            == Pass(second.tree, (if first.cleared then 1 else 0) + if second.cleared then 1 else 0)
  {
    assert [a, b][..1] == [a] && [a][..0] == [];
    assert ClearAll(t, r, action, []) == Pass(t, 0);
  }

  /** A file at the top whose first new name is free takes that name. */
  lemma RenamedOnce(t: Tree, name: string, other: string)
    requires Rooted(t) && [name] in t && [name + SUFFIX] !in t && [other] in t
    ensures var turn := ClearOne(t, Refusals({}, {}), Rename, [name]);
            && turn.cleared && Rooted(turn.tree) && [name] !in turn.tree && [name + SUFFIX] in turn.tree
            && (other != name ==> [other] in turn.tree)
  {
    var r := Refusals({}, {});
    FirstCandidate(name);
    TurnHas(t, r, Rename, [name], [name]);
    ClearOneRooted(t, r, Rename, [name]);
    TargetFacts(t, r, [name]);
    MoveOne(t, [name], [name + SUFFIX], [name]);
    MoveOne(t, [name], [name + SUFFIX], [other]);
    assert MovedPath([name], [name + SUFFIX], [name]) == [name + SUFFIX];
  }

  // ---------------------------------------------------------------- the whole decision

  predicate UnderDests(path: Path, finals: seq<Path>) {
    exists i :: 0 <= i < |finals| && finals[i] <= path
  }

  /** The refused paths to clear: below a final destination and not from the download, each once. */
  function Classify(refused: seq<Path>, finals: seq<Path>, snapshot: set<Path>): seq<Path> {
    if refused == [] then []
    else
      var init, last := refused[..|refused| - 1], refused[|refused| - 1];
      Classify(init, finals, snapshot)
      + if last !in init && UnderDests(last, finals) && last !in snapshot then [last] else []
  }

  method ClassifyRemnants(refused: seq<Path>, finals: seq<Path>, snapshot: set<Path>) returns (remnants: seq<Path>)
    ensures remnants == Classify(refused, finals, snapshot)
  {
    remnants := [];
    var seen: set<Path> := {};
    for i := 0 to |refused|
      invariant remnants == Classify(refused[..i], finals, snapshot)
      invariant forall p :: p in seen <==> p in refused[..i]
    {
      assert refused[..i + 1][..i] == refused[..i];
      if refused[i] !in seen {
        seen := seen + {refused[i]};
        if UnderDests(refused[i], finals) && refused[i] !in snapshot {
          remnants := remnants + [refused[i]];
        }
      }
    }
    assert refused[..|refused|] == refused;
  }

  predicate Distinct(s: seq<Path>) {
    forall i, j :: 0 <= i < j < |s| ==> s[i] != s[j]
  }

  lemma DistinctSnoc(s: seq<Path>, p: Path)
    requires Distinct(s)
    ensures Distinct(s + []) && (p !in s ==> Distinct(s + [p]))
  {
    assert s + [] == s;
  }

  /** Nothing of the download is ever chosen, everything else refused below a destination
      is, and nothing is chosen twice. */
  lemma {:induction false} ClassifyChooses(refused: seq<Path>, finals: seq<Path>, snapshot: set<Path>)
    ensures forall p :: p in Classify(refused, finals, snapshot)
                   <==> p in refused && UnderDests(p, finals) && p !in snapshot
    ensures Distinct(Classify(refused, finals, snapshot))
  {
    if refused != [] {
      var init, last := refused[..|refused| - 1], refused[|refused| - 1];
      assert refused == init + [last];
      ClassifyChooses(init, finals, snapshot);
      DistinctSnoc(Classify(init, finals, snapshot), last);
    }
  }

  datatype Verdict = NoChange | Restart | StillBlocked

  predicate RollsBack(newFile: Path, finals: seq<Path>, snapshot: set<Path>) {
    UnderDests(newFile, finals) && newFile !in snapshot
  }

  /** What a partial move brought into the destinations. */
  function Outputs(newFiles: seq<Path>, finals: seq<Path>, snapshot: set<Path>): seq<Path> {
    if newFiles == [] then []
    else
      var last := newFiles[|newFiles| - 1];
      Outputs(newFiles[..|newFiles| - 1], finals, snapshot) + if RollsBack(last, finals, snapshot) then [last] else []
  }

  lemma {:induction false} OutputsAre(newFiles: seq<Path>, finals: seq<Path>, snapshot: set<Path>, p: Path)
    ensures p in Outputs(newFiles, finals, snapshot) <==> p in newFiles && RollsBack(p, finals, snapshot)
  {
    if newFiles != [] {
      var init, last := newFiles[..|newFiles| - 1], newFiles[|newFiles| - 1];
      assert newFiles == init + [last];
      OutputsAre(init, finals, snapshot, p);
    }
  }

  /** The tree without it, as far as it can be removed. */
  function RolledBack(t: Tree, r: Refusals, newFiles: seq<Path>, finals: seq<Path>, snapshot: set<Path>): Tree {
    RemovedEach(t, r.stuck, Outputs(newFiles, finals, snapshot))
  }

  /** A response that was refused at some paths, and what was there before the extraction. */
  /** Rolled back is exactly what was moved below a destination and did not come with the
      download. */
  lemma {:induction false} OutputsExactly(newFiles: seq<Path>, finals: seq<Path>, snapshot: set<Path>, p: Path)
    ensures p in Outputs(newFiles, finals, snapshot)
       <==> p in newFiles && p !in snapshot && exists final :: final in finals && final <= p
  {
    if newFiles != [] {
      OutputsExactly(newFiles[..|newFiles| - 1], finals, snapshot, p);
      assert newFiles == newFiles[..|newFiles| - 1] + [newFiles[|newFiles| - 1]];
    }
    if UnderDests(p, finals) {
      var i :| 0 <= i < |finals| && finals[i] <= p;
      assert finals[i] in finals;
    }
    if final :| final in finals && final <= p {
      var i :| 0 <= i < |finals| && finals[i] == final;
      assert UnderDests(p, finals);
    }
  }

  datatype Response = Response(refused: seq<Path>, finals: seq<Path>, newFiles: seq<Path>, snapshot: Option<set<Path>>)

  datatype Handled = Handled(tree: Tree, verdict: Verdict)

  function Handle(t: Tree, r: Refusals, action: Action, resp: Response, retries: nat, maxRetries: nat): Handled
    requires Named(resp.refused)
  {
    if resp.snapshot.None? || resp.refused == [] || resp.finals == [] then Handled(t, NoChange)
    else
      var remnants := Classify(resp.refused, resp.finals, resp.snapshot.value);
      ClassifyChooses(resp.refused, resp.finals, resp.snapshot.value);
      NamedPart(remnants, resp.refused);
      if remnants == [] then Handled(t, NoChange)
      else if action == Off || retries >= maxRetries then Handled(t, StillBlocked)
      else
        var pass := ClearAll(t, r, action, remnants);
        if pass.cleared != |remnants| then Handled(pass.tree, StillBlocked)
        else Handled(RolledBack(pass.tree, r, resp.newFiles, resp.finals, resp.snapshot.value), Restart)
  }

  lemma NamedPart(part: seq<Path>, whole: seq<Path>)
    requires Named(whole) && forall p :: p in part ==> p in whole
    ensures Named(part)
  {
    assert forall i :: 0 <= i < |part| ==> part[i] in part;
  }

  /** Nothing that was asked to go lies strictly above p. */
  predicate NothingAbove(resp: Response, p: Path) {
    (forall q :: q in resp.refused ==> !(q < p)) && (forall q :: q in resp.newFiles ==> !(q < p))
  }

  lemma RollBackKeeps(t: Tree, r: Refusals, newFiles: seq<Path>, finals: seq<Path>, snapshot: set<Path>, p: Path)
    requires forall q :: q in newFiles && RollsBack(q, finals, snapshot) ==> !(q <= p)
    ensures var now := RolledBack(t, r, newFiles, finals, snapshot);
            (p in now <==> p in t) && (p in t ==> now[p] == t[p])
  {
    var outputs := Outputs(newFiles, finals, snapshot);
    forall i | 0 <= i < |outputs| ensures !(outputs[i] <= p) {
      OutputsAre(newFiles, finals, snapshot, outputs[i]);
    }
    RemovedExactly(t, r.stuck, outputs, p);
  }

  lemma ClearAllKeeps(t: Tree, r: Refusals, action: Action, dests: seq<Path>, p: Path)
    requires Rooted(t) && Named(dests) && p in t && !Covered(dests, p)
    ensures var now := ClearAll(t, r, action, dests).tree; p in now && now[p] == t[p]
  {
    if action == Delete {
      ClearAllDeletes(t, r, dests, p);
      if Covered(Visible(dests, r), p) {
        VisibleCovers(dests, r, p);
      }
    } else {
      var m := ClearAllConserves(t, r, action, dests);
      assert m[p] == p;
    }
  }

  /** What is not strictly above p is not above it, but for p itself. */
  lemma NotAbove(paths: seq<Path>, p: Path)
    requires forall q :: q in paths ==> !(q < p)
    ensures forall q :: q in paths && q != p ==> !(q <= p)
    ensures p !in paths ==> !Covered(paths, p)
  {
    forall q | q in paths && q != p ensures !(q <= p) {
      assert q <= p ==> |q| == |p| ==> q == p;
    }
    forall i | 0 <= i < |paths| && p !in paths ensures !(paths[i] <= p) {
      assert paths[i] in paths;
    }
  }

  lemma RemnantsNamed(resp: Response, remnants: seq<Path>)
    requires Named(resp.refused) && resp.snapshot.Some?
    requires remnants == Classify(resp.refused, resp.finals, resp.snapshot.value)
    ensures Named(remnants) && forall p :: p in remnants ==> p in resp.refused && p !in resp.snapshot.value
  {
    ClassifyChooses(resp.refused, resp.finals, resp.snapshot.value);
    NamedPart(remnants, resp.refused);
  }

  /** The three trees that handling can end with. */
  lemma HandleTrees(t: Tree, r: Refusals, action: Action, resp: Response, retries: nat, maxRetries: nat,
                    remnants: seq<Path>, now: Tree)
    requires Named(resp.refused) && resp.snapshot.Some? && Named(remnants)
    requires remnants == Classify(resp.refused, resp.finals, resp.snapshot.value)
    requires now == Handle(t, r, action, resp, retries, maxRetries).tree
    ensures var cleared := ClearAll(t, r, action, remnants).tree;
            now == t || now == cleared || now == RolledBack(cleared, r, resp.newFiles, resp.finals, resp.snapshot.value)
  {
  }

  /** What came with the download is never chosen, and stays in place with its content
      unless a folder above it was itself refused or rolled back. */
  lemma DownloadStays(t: Tree, r: Refusals, action: Action, resp: Response, retries: nat, maxRetries: nat, p: Path)
    requires Rooted(t) && Named(resp.refused) && resp.snapshot.Some? && p in resp.snapshot.value
    requires p in t && NothingAbove(resp, p)
    ensures var now := Handle(t, r, action, resp, retries, maxRetries).tree; p in now && now[p] == t[p]
  {
    var remnants := Classify(resp.refused, resp.finals, resp.snapshot.value);
    RemnantsNamed(resp, remnants);
    var now := Handle(t, r, action, resp, retries, maxRetries).tree;
    HandleTrees(t, r, action, resp, retries, maxRetries, remnants, now);
    NotAbove(remnants, p);
    NotAbove(resp.newFiles, p);
    var cleared := ClearAll(t, r, action, remnants).tree;
    ClearAllKeeps(t, r, action, remnants, p);
    RollBackStays(cleared, r, resp.newFiles, resp.finals, resp.snapshot.value, p);
  }

  lemma RollBackStays(t: Tree, r: Refusals, newFiles: seq<Path>, finals: seq<Path>, snapshot: set<Path>, p: Path)
    requires p in snapshot && forall q :: q in newFiles && q != p ==> !(q <= p)
    ensures var now := RolledBack(t, r, newFiles, finals, snapshot);
            (p in now <==> p in t) && (p in t ==> now[p] == t[p])
  {
    RollBackKeeps(t, r, newFiles, finals, snapshot, p);
  }

  /** A restart is ordered exactly when it is allowed, something was chosen, and all of it
      counts as cleared. */
  lemma RestartWhenCleared(t: Tree, r: Refusals, action: Action, resp: Response, retries: nat, maxRetries: nat)
    requires Named(resp.refused)
    ensures Handle(t, r, action, resp, retries, maxRetries).verdict == Restart
       <==> && resp.snapshot.Some? && action != Off && retries < maxRetries
            && var remnants := Classify(resp.refused, resp.finals, resp.snapshot.value);
               remnants != [] && Named(remnants) && ClearAll(t, r, action, remnants).cleared == |remnants|
  {
    if resp.snapshot.Some? {
      var remnants := Classify(resp.refused, resp.finals, resp.snapshot.value);
      RemnantsNamed(resp, remnants);
      if remnants != [] {
        assert remnants[0] in remnants;
        ClassifyChooses(resp.refused, resp.finals, resp.snapshot.value);
      }
    }
  }

  /** What a restart finds: an output of the partial move is there exactly when it is stuck
      or above what is stuck, and a blocker exactly when a later rename put it back for good
      and no output at or above it was removed. */
  lemma RestartFindsRoom(t: Tree, r: Refusals, action: Action, resp: Response, retries: nat, maxRetries: nat,
                         remnants: seq<Path>, outputs: seq<Path>, i: nat, p: Path)
    requires Rooted(t) && Named(resp.refused) && resp.snapshot.Some? && Named(remnants)
    requires remnants == Classify(resp.refused, resp.finals, resp.snapshot.value) && i < |remnants|
    requires outputs == Outputs(resp.newFiles, resp.finals, resp.snapshot.value)
    requires Handle(t, r, action, resp, retries, maxRetries).verdict == Restart
    ensures var now := Handle(t, r, action, resp, retries, maxRetries).tree;
            var cleared := ClearAll(t, r, action, remnants).tree;
            && (p in outputs ==> (p in now <==> p in cleared && Pinned(cleared, r.stuck, p)))
            && (remnants[i] in now
                <==> && action == Rename && PutBack(t, r, action, remnants, i)
                     && (!Covered(outputs, remnants[i]) || Pinned(cleared, r.stuck, remnants[i])))
  {
    RestartWhenCleared(t, r, action, resp, retries, maxRetries);
    var cleared := ClearAll(t, r, action, remnants).tree;
    ClearedMeansGone(t, r, action, remnants, i);
    RemovedExactly(cleared, r.stuck, outputs, p);
    RemovedExactly(cleared, r.stuck, outputs, remnants[i]);
    if p in outputs {
      var k :| 0 <= k < |outputs| && outputs[k] == p;
      assert outputs[k] <= p;
    }
  }

  /** So a restart can be ordered with a blocker still in the way. */
  lemma RestartBlockedAgain()
    ensures var t: Tree := map[[] := Dir, ["x"] := File(1), ["x.remnant"] := File(2)];
            var resp := Response([["x.remnant"], ["x"]], [[]], [], Some({}));
            var handled := Handle(t, Refusals({}, {}), Rename, resp, 0, 1);
            Rooted(t) && Named(resp.refused) && handled.verdict == Restart && ["x.remnant"] in handled.tree
  {
    var t: Tree := map[[] := Dir, ["x"] := File(1), ["x.remnant"] := File(2)];
    var r := Refusals({}, {});
    var resp := Response([["x.remnant"], ["x"]], [[]], [], Some({}));
    RenamedBackInTheWay();
    ClassifyTwo(["x.remnant"], ["x"]);
    RestartWhenCleared(t, r, Rename, resp, 0, 1);
    assert Outputs([], [[]], {}) == [];
  }

  lemma ClassifyTwo(a: Path, b: Path)
    requires a != b
    ensures Classify([a, b], [[]], {}) == [a, b]
  {
    assert [a, b][..1] == [a] && [a][..0] == [];
    assert UnderDests(a, [[]]) && UnderDests(b, [[]]) by {
      assert [[]][0] <= a && [[]][0] <= b;
    }
    assert Classify([], [[]], {}) == [] && Classify([a], [[]], {}) == [a];
  }

  // ---------------------------------------------------------------- the program

  lemma OneOutput(t: Tree, r: Refusals, outputs: seq<Path>, last: Path)
    ensures RemovedEach(t, r.stuck, outputs + [last]) == RemovedBut(RemovedEach(t, r.stuck, outputs), r.stuck, last)
  {
    assert (outputs + [last])[..|outputs|] == outputs;
  }

  class Cleaner {
    var tree: Tree
    const refusals: Refusals
    const action: Action

    constructor (tree: Tree, refusals: Refusals, action: Action)
      ensures this.tree == tree && this.refusals == refusals && this.action == action
    {
      this.tree, this.refusals, this.action := tree, refusals, action;
    }

    method ClearRemnant(dest: Path) returns (cleared: bool)
      requires dest != []
      modifies this
      ensures Turn(tree, cleared) == ClearOne(old(tree), refusals, action, dest)
    {
      if dest in refusals.hidden {
        return false;
      }
      if dest !in tree {
        return true;
      }
      if action == Delete {
        cleared := !Pinned(tree, refusals.stuck, dest);
        tree := RemovedBut(tree, refusals.stuck, dest);
        return;
      }
      var choice := UnusedRemnantPath(tree, refusals, dest);
      if !choice.Unused? || dest in refusals.stuck {
        return false;
      }
      tree := Moved(tree, dest, choice.target);
      return true;
    }

    method ClearRemnants(remnants: seq<Path>) returns (cleared: nat)
      requires Named(remnants)
      modifies this
      ensures Pass(tree, cleared) == ClearAll(old(tree), refusals, action, remnants)
    {
      cleared := 0;
      for i := 0 to |remnants|
        invariant Named(remnants[..i]) && Pass(tree, cleared) == ClearAll(old(tree), refusals, action, remnants[..i])
      {
        assert remnants[..i + 1][..i] == remnants[..i];
        var done := ClearRemnant(remnants[i]);
        if done {
          cleared := cleared + 1;
        }
      }
      assert remnants[..|remnants|] == remnants;
    }

    method RollBack(newFiles: seq<Path>, finals: seq<Path>, snapshot: set<Path>)
      modifies this
      ensures tree == RolledBack(old(tree), refusals, newFiles, finals, snapshot)
    {
      for i := 0 to |newFiles|
        invariant tree == RolledBack(old(tree), refusals, newFiles[..i], finals, snapshot)
      {
        assert newFiles[..i + 1][..i] == newFiles[..i];
        assert Outputs(newFiles[..i], finals, snapshot) + [] == Outputs(newFiles[..i], finals, snapshot);
        if RollsBack(newFiles[i], finals, snapshot) {
          OneOutput(old(tree), refusals, Outputs(newFiles[..i], finals, snapshot), newFiles[i]);
          tree := RemovedBut(tree, refusals.stuck, newFiles[i]);
        }
      }
      assert newFiles[..|newFiles|] == newFiles;
    }

    method HandleRemnants(resp: Response, retries: nat, maxRetries: nat) returns (verdict: Verdict)
      requires Named(resp.refused)
      modifies this
      ensures Handled(tree, verdict) == Handle(old(tree), refusals, action, resp, retries, maxRetries)
    {
      if resp.snapshot.None? || |resp.refused| == 0 || |resp.finals| == 0 {
        return NoChange;
      }
      var remnants := ClassifyRemnants(resp.refused, resp.finals, resp.snapshot.value);
      ClassifyChooses(resp.refused, resp.finals, resp.snapshot.value);
      NamedPart(remnants, resp.refused);
      if |remnants| == 0 {
        return NoChange;
      }
      if action == Off {
        return StillBlocked;
      }
      if retries >= maxRetries {
        return StillBlocked;
      }
      var cleared := ClearRemnants(remnants);
      if cleared != |remnants| {
        return StillBlocked;
      }
      RollBack(resp.newFiles, resp.finals, resp.snapshot.value);
      return Restart;
    }
  }
}
