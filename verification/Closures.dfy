/** Walks that collect everything some roots lead to. */
module Closures {
  import opened Basics

  /** With every element also those that it leads to. */
  ghost predicate Closed<T(!new)>(next: T -> set<T>, s: set<T>) {
    forall x :: x in s ==> next(x) <= s
  }

  /** Nothing was added that the roots do not lead to. */
  ghost predicate OnlyNeeded<T(!new)>(next: T -> set<T>, before: set<T>, after: set<T>, roots: set<T>) {
    before <= after && forall s: set<T> :: Closed(next, s) && roots <= s ==> after <= before + s
  }

  /** What was added has all that it leads to. */
  ghost predicate AddedClosed<T(!new)>(next: T -> set<T>, before: set<T>, after: set<T>) {
    forall x :: x in after && x !in before ==> next(x) <= after
  }

  /** A walk over some of the roots. */
  ghost predicate Walked<T(!new)>(next: T -> set<T>, before: set<T>, after: set<T>, roots: set<T>) {
    roots <= after && AddedClosed(next, before, after) && OnlyNeeded(next, before, after, roots)
  }

  /** The smallest closed set with the roots. */
  ghost predicate IsClosure<T(!new)>(next: T -> set<T>, roots: set<T>, s: set<T>) {
    roots <= s && Closed(next, s) && forall t: set<T> :: Closed(next, t) && roots <= t ==> s <= t
  }

  lemma NeededNone<T(!new)>(next: T -> set<T>, s: set<T>, roots: set<T>)
    ensures OnlyNeeded(next, s, s, roots)
  {
  }

  lemma NeededOne<T(!new)>(next: T -> set<T>, s: set<T>, x: T)
    ensures OnlyNeeded(next, s, s + {x}, {x})
  {
  }

  lemma NeededMore<T(!new)>(next: T -> set<T>, before: set<T>, middle: set<T>, after: set<T>, roots: set<T>,
                            more: set<T>)
    requires OnlyNeeded(next, before, middle, roots) && OnlyNeeded(next, middle, after, more)
    ensures OnlyNeeded(next, before, after, roots + more)
  {
  }

  /** An element needs what it leads to. */
  lemma NeededInto<T(!new)>(next: T -> set<T>, before: set<T>, after: set<T>, x: T)
    requires OnlyNeeded(next, before + {x}, after, next(x))
    ensures OnlyNeeded(next, before, after, {x})
  {
    forall s: set<T> | Closed(next, s) && {x} <= s ensures after <= before + s {
      assert x in s && next(x) <= s;
    }
  }

  lemma WalkedNone<T(!new)>(next: T -> set<T>, s: set<T>, roots: set<T>)
    requires roots <= s
    ensures Walked(next, s, s, roots)
  {
  }

  lemma WalkedMore<T(!new)>(next: T -> set<T>, before: set<T>, middle: set<T>, after: set<T>, roots: set<T>,
                            more: set<T>)
    requires Walked(next, before, middle, roots) && Walked(next, middle, after, more)
    ensures Walked(next, before, after, roots + more)
  {
    NeededMore(next, before, middle, after, roots, more);
  }

  /** The element was added before what it leads to was walked. */
  lemma WalkedInto<T(!new)>(next: T -> set<T>, before: set<T>, after: set<T>, x: T)
    requires Walked(next, before + {x}, after, next(x))
    ensures Walked(next, before, after, {x})
  {
    NeededInto(next, before, after, x);
  }

  lemma WalkedWhole<T(!new)>(next: T -> set<T>, after: set<T>, roots: set<T>)
    requires Walked(next, {}, after, roots)
    ensures IsClosure(next, roots, after)
  {
    forall t: set<T> | Closed(next, t) && roots <= t ensures after <= t {
      assert {} + t == t;
    }
  }
}
