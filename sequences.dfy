/** Facts about sequences used as Python lists. */
module Sequences {

  /** The set of elements of a list (Python's `set(xs)`). */
  function Elems<T>(xs: seq<T>): set<T>
  {
    set x | x in xs
  }

  /** A list without repeated elements. */
  predicate NoDups<T(==)>(xs: seq<T>)
  {
    forall i, j :: 0 <= i < j < |xs| ==> xs[i] != xs[j]
  }

  /** Without repetitions a list is exactly as long as its set of elements. */
  lemma {:induction false} NoDupsCard<T>(xs: seq<T>)
    requires NoDups(xs)
    ensures |Elems(xs)| == |xs|
  {
    if xs != [] {
      var init := xs[..|xs| - 1];
      assert NoDups(init);
      NoDupsCard(init);
      assert xs[|xs| - 1] !in init;
      assert Elems(xs) == Elems(init) + {xs[|xs| - 1]};
    }
  }

  /** Only the empty list has no elements. */
  lemma ElemsEmpty<T>(xs: seq<T>)
    ensures Elems(xs) == {} <==> xs == []
  {
    if xs != [] {
      assert xs[0] in Elems(xs);
    }
  }

  /** Appending one element adds it to the set of elements. */
  lemma ElemsSnoc<T>(xs: seq<T>, x: T)
    ensures Elems(xs + [x]) == Elems(xs) + {x}
  {
    assert forall y :: y in xs + [x] <==> y in xs || y == x;
  }

  /** Appending an element that is not there yet keeps a list free of repetitions. */
  lemma NoDupsSnoc<T>(xs: seq<T>, x: T)
    requires NoDups(xs) && x !in Elems(xs)
    ensures NoDups(xs + [x])
  {
    assert forall i :: 0 <= i < |xs| ==> xs[i] in Elems(xs);
  }
}
