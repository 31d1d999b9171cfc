/** An optional value, for the source's `Option`, `None` and missing dictionary keys. */
module Wrappers {
  datatype Option<+T> = None | Some(value: T)
}

module Numbers {
  const U64_MAX: nat := 0xFFFF_FFFF_FFFF_FFFF

  function Min(a: nat, b: nat): nat {
    if a <= b then a else b
  }

  function Max(a: nat, b: nat): nat {
    if a >= b then a else b
  }

  lemma SubsetSize<T>(a: set<T>, b: set<T>)
    requires a <= b
    ensures |a| <= |b|
  {
    assert b == a + (b - a);
  }
}

/** Visiting the elements of a set one by one: `done` are the ones no longer in `left`. */
module Traversals {
  ghost predicate Visiting<T>(all: set<T>, left: set<T>, done: set<T>) {
    left <= all && done == all - left
  }

  lemma Visited<T>(all: set<T>, left: set<T>, done: set<T>, x: T)
    requires Visiting(all, left, done) && x in left
    ensures Visiting(all, left - {x}, done + {x}) && x !in done
  {}

  lemma NoneLeft<T>(all: set<T>, done: set<T>)
    requires Visiting(all, {}, done)
    ensures done == all
  {}
}
