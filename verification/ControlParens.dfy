/** Which parenthesis of a text is the outermost one of a control statement that is still
    open, and which `)` closes it: the counting of trackControl in
    pkg/configdef/validate.go, said over the whole text and sign by sign. */
module ControlParens {

  /** A sign of the text, as far as parentheses go. A head opens a control statement. */
  datatype Paren = Head(isFor: bool) | Opening | Closing | Neither

  function Turn(p: Paren): int {
    match p
    case Head(_) => 1
    case Opening => 1
    case Closing => -1
    case Neither => 0
  }

  // ---------------------------------------------------------------- over the whole text

  /** How many parentheses of ps[i..n] are opened less how many are closed. */
  function Nesting(ps: seq<Paren>, i: nat, n: nat): int
    requires i <= n <= |ps|
    decreases n
  {
    if i == n then 0 else Nesting(ps, i, n - 1) + Turn(ps[n - 1])
  }

  /** i is the head of a control statement whose parenthesis is not closed before n. */
  predicate OpenAt(ps: seq<Paren>, i: nat, n: nat)
    requires n <= |ps|
  {
    i < n && ps[i].Head? && forall j {:trigger Nesting(ps, i, j)} :: i < j <= n ==> Nesting(ps, i, j) >= 1
  }

  predicate Outermost(ps: seq<Paren>, i: nat, n: nat)
    requires n <= |ps|
  {
    OpenAt(ps, i, n) && forall k :: 0 <= k < i ==> !OpenAt(ps, k, n)
  }

  /** n is inside the parentheses of a `for`. */
  predicate InFor(ps: seq<Paren>, n: nat)
    requires n <= |ps|
  {
    exists i :: 0 <= i < n && Outermost(ps, i, n) && ps[i] == Head(true)
  }

  /** The sign at n closes the outermost open control parenthesis. */
  predicate ClosesOutermost(ps: seq<Paren>, n: nat)
    requires n < |ps|
  {
    ps[n].Closing? && exists i :: 0 <= i < n && Outermost(ps, i, n) && Nesting(ps, i, n + 1) == 0
  }

  // ---------------------------------------------------------------- sign by sign

  datatype Place = Free | Within(i: nat, depth: nat, isFor: bool)

  function PlaceNext(p: Paren, n: nat, place: Place): Place {
    match place
    case Free => if p.Head? then Within(n, 1, p.isFor) else Free
    case Within(i, depth, isFor) => if depth + Turn(p) <= 0 then Free else Within(i, depth + Turn(p), isFor)
  }

  function PlaceAt(ps: seq<Paren>, n: nat): Place
    requires n <= |ps|
  {
    if n == 0 then Free else PlaceNext(ps[n - 1], n - 1, PlaceAt(ps, n - 1))
  }

  // ---------------------------------------------------------------- which is the same

  lemma {:induction false} NestingSplit(ps: seq<Paren>, i: nat, k: nat, n: nat)
    requires i <= k <= n <= |ps|
    ensures Nesting(ps, i, n) == Nesting(ps, i, k) + Nesting(ps, k, n)
    decreases n
  {
    if k < n {
      NestingSplit(ps, i, k, n - 1);
    }
  }

  lemma OpenNext(ps: seq<Paren>, i: nat, n: nat)
    requires n < |ps|
    ensures OpenAt(ps, i, n + 1) <==> if i == n then ps[n].Head? else OpenAt(ps, i, n) && Nesting(ps, i, n + 1) >= 1
  {
    assert i == n ==> Nesting(ps, n, n + 1) == Nesting(ps, n, n) + Turn(ps[n]);
  }

  ghost predicate Outside(ps: seq<Paren>, n: nat)
    requires n <= |ps|
  {
    forall i: nat :: !OpenAt(ps, i, n)
  }

  /** i is the outermost open control parenthesis before n, and depth its nesting. */
  ghost predicate Inside(ps: seq<Paren>, i: nat, n: nat, depth: int)
    requires n <= |ps|
  {
    Outermost(ps, i, n) && Nesting(ps, i, n) == depth
  }

  lemma OutsideNext(ps: seq<Paren>, n: nat)
    requires n < |ps| && Outside(ps, n) && !ps[n].Head?
    ensures Outside(ps, n + 1)
  {
    var m := n + 1;
    forall i: nat ensures !OpenAt(ps, i, m) {
      OpenNext(ps, i, n);
    }
  }

  lemma Opens(ps: seq<Paren>, n: nat)
    requires n < |ps| && Outside(ps, n) && ps[n].Head?
    ensures Inside(ps, n, n + 1, 1)
  {
    var m := n + 1;
    assert Nesting(ps, n, m) == Nesting(ps, n, n) + Turn(ps[n]);
    OpenNext(ps, n, n);
    forall k: nat | k < n ensures !OpenAt(ps, k, m) {
      OpenNext(ps, k, n);
    }
  }

  lemma InsideNext(ps: seq<Paren>, i: nat, n: nat, depth: nat)
    requires n < |ps| && Inside(ps, i, n, depth) && depth + Turn(ps[n]) > 0
    ensures Inside(ps, i, n + 1, depth + Turn(ps[n]))
  {
    var m := n + 1;
    OpenNext(ps, i, n);
    forall k: nat | k < i ensures !OpenAt(ps, k, m) {
      OpenNext(ps, k, n);
    }
  }

  /** Of two open control parentheses the later one is nested less deep. */
  lemma OpenNested(ps: seq<Paren>, i: nat, k: nat, n: nat)
    requires n <= |ps| && i < k && OpenAt(ps, i, n) && OpenAt(ps, k, n)
    ensures Nesting(ps, i, n) > Nesting(ps, k, n) >= 1
  {
    NestingSplit(ps, i, k, n);
    assert Nesting(ps, i, k) >= 1;
  }

  lemma NotOpen(ps: seq<Paren>, i: nat, k: nat, n: nat)
    requires n < |ps| && Inside(ps, i, n, 1) && ps[n].Closing?
    ensures !OpenAt(ps, k, n + 1)
  {
    OpenNext(ps, k, n);
    if k > i && OpenAt(ps, k, n) {
      OpenNested(ps, i, k, n);
    }
  }

  lemma Closes(ps: seq<Paren>, i: nat, n: nat)
    requires n < |ps| && Inside(ps, i, n, 1) && ps[n].Closing?
    ensures Outside(ps, n + 1)
  {
    var m := n + 1;
    forall k: nat ensures !OpenAt(ps, k, m) {
      NotOpen(ps, i, k, n);
    }
  }

  lemma OneOutermost(ps: seq<Paren>, i: nat, k: nat, n: nat)
    requires n <= |ps| && Outermost(ps, i, n) && Outermost(ps, k, n)
    ensures i == k
  {
  }

  ghost predicate Describes(ps: seq<Paren>, n: nat, place: Place)
    requires n <= |ps|
  {
    match place
    case Free => Outside(ps, n)
    case Within(i, depth, isFor) => depth > 0 && Inside(ps, i, n, depth) && ps[i] == Head(isFor)
  }

  lemma DescribesNext(ps: seq<Paren>, n: nat, place: Place)
    requires n < |ps| && Describes(ps, n, place)
    ensures Describes(ps, n + 1, PlaceNext(ps[n], n, place))
  {
    match place {
      case Free =>
        if ps[n].Head? {
          Opens(ps, n);
        } else {
          OutsideNext(ps, n);
        }
      case Within(i, depth, _) =>
        if depth + Turn(ps[n]) > 0 {
          InsideNext(ps, i, n, depth);
        } else {
          Closes(ps, i, n);
        }
    }
  }

  lemma {:induction false} PlaceDescribes(ps: seq<Paren>, n: nat)
    requires n <= |ps|
    ensures Describes(ps, n, PlaceAt(ps, n))
  {
    if n > 0 {
      PlaceDescribes(ps, n - 1);
      DescribesNext(ps, n - 1, PlaceAt(ps, n - 1));
    }
  }

  lemma {:induction false} WithinIs(ps: seq<Paren>, n: nat, i: nat)
    requires n <= |ps| && Outermost(ps, i, n)
    ensures var place := PlaceAt(ps, n);
            place.Within? && place.i == i && place.depth == Nesting(ps, i, n) && ps[i] == Head(place.isFor)
  {
    PlaceDescribes(ps, n);
    match PlaceAt(ps, n) {
      case Free =>
      case Within(k, _, _) => OneOutermost(ps, i, k, n);
    }
  }

  /** Counting from one head at a time finds the parenthesis that closes the outermost. */
  lemma ClosesIs(ps: seq<Paren>, n: nat)
    requires n < |ps|
    ensures ClosesOutermost(ps, n) <==> ps[n].Closing? && PlaceAt(ps, n).Within? && PlaceAt(ps, n).depth == 1
  {
    if ClosesOutermost(ps, n) {
      var i :| 0 <= i < n && Outermost(ps, i, n) && Nesting(ps, i, n + 1) == 0;
      WithinIs(ps, n, i);
    } else if PlaceAt(ps, n).Within? {
      PlaceDescribes(ps, n);
      var i := PlaceAt(ps, n).i;
      assert Outermost(ps, i, n) && Nesting(ps, i, n + 1) == Nesting(ps, i, n) + Turn(ps[n]);
    }
  }

  lemma InForIs(ps: seq<Paren>, n: nat)
    requires n <= |ps|
    ensures InFor(ps, n) <==> PlaceAt(ps, n).Within? && PlaceAt(ps, n).isFor
  {
    if InFor(ps, n) {
      var i :| 0 <= i < n && Outermost(ps, i, n) && ps[i] == Head(true);
      WithinIs(ps, n, i);
    } else {
      PlaceDescribes(ps, n);
    }
  }

  // ---------------------------------------------------------------- a control statement

  /** ps[i..n] is the parenthesis of a control statement with its balanced inside, closed at n. */
  predicate Balanced(ps: seq<Paren>, i: nat, n: nat)
    requires n < |ps|
  {
    && i < n && ps[i].Head? && Nesting(ps, i, n + 1) == 0
    && forall j {:trigger Nesting(ps, i, j)} :: i < j <= n ==> Nesting(ps, i, j) >= 1
  }

  /** The head at i stands in no other head. */
  predicate Alone(ps: seq<Paren>, i: nat)
    requires i <= |ps|
  {
    forall k :: 0 <= k < i ==> !OpenAt(ps, k, i)
  }

  lemma OpenBefore(ps: seq<Paren>, k: nat, i: nat, n: nat)
    requires n <= |ps| && k < i < n && OpenAt(ps, i, n)
    ensures OpenAt(ps, k, n) <==> OpenAt(ps, k, i)
  {
    forall j | i < j <= n ensures Nesting(ps, k, j) > Nesting(ps, k, i) {
      NestingSplit(ps, k, i, j);
      assert Nesting(ps, i, j) >= 1;
    }
  }

  lemma EarlierStaysOpen(ps: seq<Paren>, k: nat, i: nat, n: nat)
    requires n < |ps| && Balanced(ps, i, n) && k < i && OpenAt(ps, k, n)
    ensures Nesting(ps, k, n + 1) >= 1
  {
    NestingSplit(ps, k, i, n + 1);
    assert Nesting(ps, k, i) >= 1;
  }

  /** Its end is found exactly when the statement does not stand inside the parentheses of
      another one. */
  lemma ControlEnds(ps: seq<Paren>, i: nat, n: nat)
    requires n < |ps| && Balanced(ps, i, n)
    ensures ClosesOutermost(ps, n) <==> Alone(ps, i)
  {
    assert Nesting(ps, i, n) >= 1 && ps[n].Closing?;
    assert OpenAt(ps, i, n);
    forall k | 0 <= k < i ensures OpenAt(ps, k, n) <==> OpenAt(ps, k, i) {
      OpenBefore(ps, k, i, n);
    }
    if ClosesOutermost(ps, n) {
      var k :| 0 <= k < n && Outermost(ps, k, n) && Nesting(ps, k, n + 1) == 0;
      if k < i {
        EarlierStaysOpen(ps, k, i, n);
      }
      assert k == i;
    } else {
      assert !Outermost(ps, i, n);
    }
  }
}
