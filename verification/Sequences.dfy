/** Small facts about sequences of anything, for the proofs about queues and lists. */
module Sequences {

  lemma Reassociate<T>(a: seq<T>, b: seq<T>, c: seq<T>)
    ensures (a + b) + c == a + (b + c)
  {
  }

  lemma Empties<T>(a: seq<T>)
    ensures a + [] == a && [] + a == a
  {
  }

  lemma FirstAndRest<T>(a: seq<T>)
    requires |a| > 0
    ensures [a[0]] + a[1..] == a
  {
  }

  lemma FiveParts<T>(a: seq<T>, b: seq<T>, c: seq<T>, d: seq<T>, e: seq<T>)
    ensures a + (b + (c + (d + e))) == (a + (b + (c + d))) + e
  {
  }

  lemma TakeFirst<T>(done: seq<T>, taken: seq<T>, waiting: seq<T>)
    requires |taken| > 0
    ensures done + (taken + waiting) == (done + [taken[0]]) + (taken[1..] + waiting)
  {
  }

  lemma OneMore<T>(done: seq<T>, taken: seq<T>, waiting: seq<T>, x: T)
    ensures (done + (taken + waiting)) + [x] == done + (taken + (waiting + [x]))
  {
  }
}
