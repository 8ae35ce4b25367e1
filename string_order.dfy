/** Python's `<` on `str` (lexicographic by code point) and `sorted` on a
    set of IDs. */
module StringOrder {
  import opened Sequences

  /** `a < b` on Python strings: the first differing code point decides, and
      a proper prefix comes first. */
  predicate Less(a: string, b: string)
    decreases |a|
  {
    if a == [] then b != []
    else b != [] && (a[0] < b[0] || (a[0] == b[0] && Less(a[1..], b[1..])))
  }

  lemma {:induction false} LessIrreflexive(a: string)
    ensures !Less(a, a)
  {
    if a != [] {
      LessIrreflexive(a[1..]);
    }
  }

  lemma {:induction false} LessAsymmetric(a: string, b: string)
    requires Less(a, b)
    ensures !Less(b, a)
  {
    if a != [] && a[0] == b[0] {
      LessAsymmetric(a[1..], b[1..]);
    }
  }

  lemma {:induction false} LessTransitive(a: string, b: string, c: string)
    requires Less(a, b) && Less(b, c)
    ensures Less(a, c)
  {
    if a != [] && a[0] == b[0] && b[0] == c[0] {
      LessTransitive(a[1..], b[1..], c[1..]);
    }
  }

  lemma {:induction false} LessTotal(a: string, b: string)
    ensures a == b || Less(a, b) || Less(b, a)
  {
    if a != [] && b != [] && a[0] == b[0] {
      LessTotal(a[1..], b[1..]);
      if a[1..] == b[1..] {
        assert a == [a[0]] + a[1..] && b == [b[0]] + b[1..];
      }
    }
  }

  /** Every element is smaller than every later one. */
  predicate StrictlySorted(xs: seq<string>)
  {
    forall i, j :: 0 <= i < j < |xs| ==> Less(xs[i], xs[j])
  }

  /** `m` is the smallest element of `u`. */
  predicate IsMinimum(m: string, u: set<string>)
  {
    m in u && forall x :: x in u ==> x == m || Less(m, x)
  }

  lemma {:induction false} MinimumExists(u: set<string>)
    requires u != {}
    ensures exists m :: IsMinimum(m, u)
    decreases |u|
  {
    var y :| y in u;
    if u - {y} == {} {
      forall x | x in u ensures x == y {
        assert x !in u - {y};
      }
      assert IsMinimum(y, u);
    } else {
      MinimumExists(u - {y});
      var m :| IsMinimum(m, u - {y});
      LessTotal(m, y);
      if Less(m, y) {
        assert IsMinimum(m, u);
      } else {
        forall x | x in u && x != y
          ensures Less(y, x)
        {
          if x != m {
            LessTransitive(y, m, x);
          }
        }
        assert IsMinimum(y, u);
      }
    }
  }

  lemma MinimumUnique(m: string, n: string, u: set<string>)
    requires IsMinimum(m, u) && IsMinimum(n, u)
    ensures m == n
  {
    if m != n {
      LessAsymmetric(m, n);
    }
  }

  /** The minimum of a set put in front of the rest in increasing order
      enumerates the set in increasing order. */
  lemma MinimumFirst(m: string, rest: seq<string>, u: set<string>)
    requires IsMinimum(m, u)
    requires StrictlySorted(rest) && Elems(rest) == u - {m}
    ensures StrictlySorted([m] + rest) && Elems([m] + rest) == u
  {
    var r := [m] + rest;
    forall i, j | 0 <= i < j < |r| ensures Less(r[i], r[j]) {
      if i == 0 {
        assert r[j] == rest[j - 1] && rest[j - 1] in Elems(rest);
      } else {
        assert r[i] == rest[i - 1] && r[j] == rest[j - 1];
      }
    }
    assert forall x :: x in Elems(r) <==> x == m || x in Elems(rest);
  }

  lemma MinimaAgree(u: set<string>)
    ensures forall m, n :: IsMinimum(m, u) && IsMinimum(n, u) ==> m == n
  {
    forall m, n | IsMinimum(m, u) && IsMinimum(n, u) ensures m == n {
      MinimumUnique(m, n, u);
    }
  }

  /** `sorted(u)`: the elements of `u` in increasing order. */
  function SortedIds(u: set<string>): (r: seq<string>)
    ensures StrictlySorted(r)
    ensures Elems(r) == u
    decreases |u|
  {
    if u == {} then []
    else
      MinimumExists(u);
      MinimaAgree(u);
      var m :| IsMinimum(m, u);
      var rest := SortedIds(u - {m});
      MinimumFirst(m, rest, u);
      [m] + rest
  }

  /** A strictly increasing list is determined by its elements: any two
      enumerations of one set in increasing order are the same list. */
  lemma {:induction false} SortedUnique(xs: seq<string>, ys: seq<string>)
    requires StrictlySorted(xs) && StrictlySorted(ys)
    requires Elems(xs) == Elems(ys)
    ensures xs == ys
  {
    ElemsEmpty(xs);
    ElemsEmpty(ys);
    if xs != [] {
      var u := Elems(xs);
      assert IsMinimum(xs[0], u) by {
        forall x | x in u ensures x == xs[0] || Less(xs[0], x) {
          var i :| 0 <= i < |xs| && xs[i] == x;
        }
      }
      assert IsMinimum(ys[0], u) by {
        forall x | x in u ensures x == ys[0] || Less(ys[0], x) {
          var i :| 0 <= i < |ys| && ys[i] == x;
        }
      }
      MinimumUnique(xs[0], ys[0], u);
      assert Elems(xs[1..]) == u - {xs[0]} by {
        forall i | 1 <= i < |xs| ensures xs[i] != xs[0] {
          LessIrreflexive(xs[0]);
        }
        assert xs == [xs[0]] + xs[1..];
      }
      assert Elems(ys[1..]) == u - {ys[0]} by {
        forall i | 1 <= i < |ys| ensures ys[i] != ys[0] {
          LessIrreflexive(ys[0]);
        }
        assert ys == [ys[0]] + ys[1..];
      }
      SortedUnique(xs[1..], ys[1..]);
      assert xs == [xs[0]] + xs[1..] && ys == [ys[0]] + ys[1..];
    }
  }

  /** A strictly increasing list holds no element twice. */
  lemma SortedNoDups(xs: seq<string>)
    requires StrictlySorted(xs)
    ensures NoDups(xs)
  {
    forall i, j | 0 <= i < j < |xs| ensures xs[i] != xs[j] {
      LessIrreflexive(xs[i]);
    }
  }
}
