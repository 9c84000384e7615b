// List facts shared by the models.
module Sequences {

  /** The images of the elements, one after the other. */
  function FlatMap<T, U>(f: T -> seq<U>, xs: seq<T>): seq<U> {
    if xs == [] then [] else FlatMap(f, xs[..|xs| - 1]) + f(xs[|xs| - 1])
  }

  lemma SnocConcat<T>(a: seq<T>, b: seq<T>)
    requires b != []
    ensures (a + b)[..|a + b| - 1] == a + b[..|b| - 1]
    ensures (a + b)[|a + b| - 1] == b[|b| - 1]
  {
  }

  lemma {:induction false} FlatMapConcat<T, U>(f: T -> seq<U>, a: seq<T>, b: seq<T>)
    ensures FlatMap(f, a + b) == FlatMap(f, a) + FlatMap(f, b)
    decreases |b|
  {
    if b == [] {
      assert a + b == a;
    } else {
      SnocConcat(a, b);
      FlatMapConcat(f, a, b[..|b| - 1]);
    }
  }

  lemma FlatMapAround<T, U>(f: T -> seq<U>, before: seq<T>, x: T, after: seq<T>)
    ensures FlatMap(f, before + [x] + after) == FlatMap(f, before) + f(x) + FlatMap(f, after)
  {
    FlatMapConcat(f, before + [x], after);
    FlatMapConcat(f, before, [x]);
    assert FlatMap(f, [x]) == f(x) by {
      assert [x][..0] == [];
      assert FlatMap(f, [x][..0]) == [];
    }
  }

  predicate SameMembers<T(==)>(a: seq<T>, b: seq<T>) {
    (forall x :: x in a ==> x in b) && (forall x :: x in b ==> x in a)
  }
}
