/** Python's `dict` with string keys and values, as its items in insertion
    order: assigning to a present key keeps its place, a new key goes last,
    and `update` assigns its items one after another. */
module Dict {
  import opened Outcomes
  import opened Sequences

  type Dict = seq<(string, string)>

  function Keys(d: Dict): (ks: seq<string>)
    ensures |ks| == |d|
    ensures forall i :: 0 <= i < |d| ==> ks[i] == d[i].0
  {
    seq(|d|, i requires 0 <= i < |d| => d[i].0)
  }

  /** The keys are distinct, as in every Python dict. */
  predicate WellFormed(d: Dict)
  {
    NoDups(Keys(d))
  }

  /** `d.get(k)`. */
  function Get(d: Dict, k: string): (v: Option<string>)
    ensures v.Some? <==> k in Keys(d)
  {
    if d == [] then None
    else if d[0].0 == k then Some(d[0].1)
    else
      assert Keys(d) == [d[0].0] + Keys(d[1..]);
      Get(d[1..], k)
  }

  /** `a` where it is present, otherwise `b`. */
  function Override<T>(a: Option<T>, b: Option<T>): Option<T>
  {
    if a.Some? then a else b
  }

  /** Looking a key up in a dict with one more item in front. */
  lemma GetCons(x: (string, string), rest: Dict)
    ensures forall k :: Get([x] + rest, k) == if x.0 == k then Some(x.1) else Get(rest, k)
  {
    assert ([x] + rest)[1..] == rest;
  }

  /** `d[k] = v` on the items: the item with key `k` takes the new value in
      its place, or a new item goes last. */
  function Assign(d: Dict, k: string, v: string): Dict
  {
    if d == [] then [(k, v)]
    else if d[0].0 == k then [(k, v)] + d[1..]
    else [d[0]] + Assign(d[1..], k, v)
  }

  lemma {:induction false} AssignGet(d: Dict, k: string, v: string, k': string)
    ensures Get(Assign(d, k, v), k') == if k' == k then Some(v) else Get(d, k')
  {
    if d != [] {
      assert d == [d[0]] + d[1..];
      GetCons(d[0], d[1..]);
      if d[0].0 == k {
        GetCons((k, v), d[1..]);
      } else {
        AssignGet(d[1..], k, v, k');
        GetCons(d[0], Assign(d[1..], k, v));
      }
    }
  }

  lemma AssignGetAll(d: Dict, k: string, v: string)
    ensures Get(Assign(d, k, v), k) == Some(v)
    ensures forall k' :: k' != k ==> Get(Assign(d, k, v), k') == Get(d, k')
  {
    AssignGet(d, k, v, k);
    forall k' | k' != k ensures Get(Assign(d, k, v), k') == Get(d, k') {
      AssignGet(d, k, v, k');
    }
  }

  lemma KeysCons(x: (string, string), rest: Dict)
    ensures Keys([x] + rest) == [x.0] + Keys(rest)
  {
    assert forall i :: 1 <= i < |rest| + 1 ==> ([x] + rest)[i] == rest[i - 1];
  }

  lemma {:induction false} AssignKeys(d: Dict, k: string, v: string)
    ensures Keys(Assign(d, k, v)) == if k in Keys(d) then Keys(d) else Keys(d) + [k]
  {
    if d != [] {
      var ks := Keys(d[1..]);
      assert d == [d[0]] + d[1..];
      KeysCons(d[0], d[1..]);
      assert Keys(d) == [d[0].0] + ks;
      if d[0].0 == k {
        KeysCons((k, v), d[1..]);
      } else {
        var rest := Assign(d[1..], k, v);
        AssignKeys(d[1..], k, v);
        KeysCons(d[0], rest);
        assert k in Keys(d) <==> k in ks;
        if k !in ks {
          assert [d[0].0] + (ks + [k]) == ([d[0].0] + ks) + [k];
        }
      }
    }
  }

  /** `d[k] = v`: `k` now maps to `v`, every other key keeps its value, and
      the keys keep their order with `k` added last if it is new. */
  function Put(d: Dict, k: string, v: string): (r: Dict)
    ensures Get(r, k) == Some(v)
    ensures forall k' :: k' != k ==> Get(r, k') == Get(d, k')
    ensures Keys(r) == if k in Keys(d) then Keys(d) else Keys(d) + [k]
  {
    AssignGetAll(d, k, v);
    AssignKeys(d, k, v);
    Assign(d, k, v)
  }

  /** Two assignments of different keys to an empty dict give a dict with
      those two keys, in assignment order. */
  lemma PutTwo(k1: string, v1: string, k2: string, v2: string)
    requires k1 != k2
    ensures var b := Put(Put([], k1, v1), k2, v2);
      WellFormed(b) && |b| == 2 && b[0].0 == k1 && b[1].0 == k2
  {
    var b1 := Assign([], k1, v1);
    assert b1 == [(k1, v1)];
    assert b1[1..] == [];
    var b := Assign(b1, k2, v2);
    assert b == [(k1, v1)] + Assign([], k2, v2);
    assert b == [(k1, v1), (k2, v2)];
    assert Put(Put([], k1, v1), k2, v2) == b;
    assert Keys(b)[0] == k1 && Keys(b)[1] == k2;
  }

  /** The value of the last item with key `k`, if any. */
  function LastValue(items: seq<(string, string)>, k: string): (v: Option<string>)
    ensures v.Some? <==> k in Keys(items)
  {
    if items == [] then None
    else
      var init := items[..|items| - 1];
      assert Keys(items) == Keys(init) + [items[|items| - 1].0];
      if items[|items| - 1].0 == k then Some(items[|items| - 1].1) else LastValue(init, k)
  }

  /** `d.update(items)`: the items assigned in order. */
  function PutAll(d: Dict, items: seq<(string, string)>): Dict
    decreases |items|
  {
    if items == [] then d else PutAll(Put(d, items[0].0, items[0].1), items[1..])
  }

  /** After `update`, the last write to a key wins: a key takes the value of
      its last item, and keys without items keep their value. */
  lemma {:induction false} PutAllGet(d: Dict, items: seq<(string, string)>, k: string)
    ensures Get(PutAll(d, items), k) == Override(LastValue(items, k), Get(d, k))
    decreases |items|
  {
    if items != [] {
      var d' := Put(d, items[0].0, items[0].1);
      PutAllGet(d', items[1..], k);
      LastValueCons(items, k);
    }
  }

  /** The last value of a key, seen from the front: a later item wins over
      the first one. */
  lemma {:induction false} LastValueCons(items: seq<(string, string)>, k: string)
    requires items != []
    ensures LastValue(items, k) == Override(LastValue(items[1..], k), if items[0].0 == k then Some(items[0].1) else None)
    decreases |items|
  {
    if |items| > 1 {
      var init := items[..|items| - 1];
      var last := items[|items| - 1];
      var tail := items[1..];
      assert tail[..|tail| - 1] == init[1..];
      assert tail[|tail| - 1] == last;
      assert LastValue(items, k) == if last.0 == k then Some(last.1) else LastValue(init, k);
      assert LastValue(tail, k) == if last.0 == k then Some(last.1) else LastValue(init[1..], k);
      LastValueCons(init, k);
    }
  }

  /** The tail of a well-formed dict is well formed and lacks the head's key. */
  lemma WellFormedCons(x: (string, string), tail: Dict)
    requires WellFormed([x] + tail)
    ensures WellFormed(tail) && x.0 !in Keys(tail)
  {
    KeysCons(x, tail);
    var ks := Keys(tail);
    var all := Keys([x] + tail);
    forall i, j | 0 <= i < j < |ks| ensures ks[i] != ks[j] {
      assert ks[i] == all[i + 1] && ks[j] == all[j + 1];
    }
    forall j | 0 <= j < |ks| ensures ks[j] != x.0 {
      assert all[0] == x.0 && all[j + 1] == ks[j];
    }
  }

  /** Updating with another dict: its values win where it has the key. */
  lemma {:induction false} UpdateGet(d: Dict, other: Dict, k: string)
    requires WellFormed(other)
    ensures Get(PutAll(d, other), k) == Override(Get(other, k), Get(d, k))
    decreases |other|
  {
    if other != [] {
      var x := other[0];
      var tail := other[1..];
      assert other == [x] + tail;
      GetCons(x, tail);
      WellFormedCons(x, tail);
      UpdateGet(Put(d, x.0, x.1), tail, k);
    }
  }

  /** Every key of `d` is still in its place in `r`. */
  predicate KeptInFront(d: Dict, r: Dict)
  {
    |d| <= |r| && forall i :: 0 <= i < |d| ==> r[i].0 == d[i].0
  }

  /** Assigning keeps the existing keys in place, in front. */
  lemma PutInFront(d: Dict, k: string, v: string)
    ensures KeptInFront(d, Put(d, k, v))
  {
    var r := Put(d, k, v);
    forall i | 0 <= i < |d| ensures r[i].0 == d[i].0 {
      assert Keys(r)[i] == Keys(d)[i];
    }
  }

  /** `update` keeps the existing keys in place, in front. */
  lemma {:induction false} PutAllInFront(d: Dict, items: seq<(string, string)>)
    ensures KeptInFront(d, PutAll(d, items))
    decreases |items|
  {
    if items != [] {
      var d' := Put(d, items[0].0, items[0].1);
      PutInFront(d, items[0].0, items[0].1);
      PutAllInFront(d', items[1..]);
    }
  }

  /** Two assignments in a row are an `update` with two items. */
  lemma PutAllTwo(d: Dict, a: (string, string), b: (string, string))
    ensures PutAll(d, [a, b]) == Put(Put(d, a.0, a.1), b.0, b.1)
  {
    var d1 := Put(d, a.0, a.1);
    assert [a, b][1..] == [b];
    assert PutAll(d, [a, b]) == PutAll(d1, [b]);
    assert [b][1..] == [];
    assert PutAll(d1, [b]) == PutAll(Put(d1, b.0, b.1), []);
  }

  /** After `update` the keys are the old keys and the keys of the items. */
  lemma {:induction false} PutAllMembers(d: Dict, items: seq<(string, string)>, k: string)
    ensures k in Keys(PutAll(d, items)) <==> k in Keys(d) || k in Keys(items)
    decreases |items|
  {
    if items != [] {
      var x := items[0];
      var tail := items[1..];
      assert items == [x] + tail;
      KeysCons(x, tail);
      assert k in Keys(items) <==> k == x.0 || k in Keys(tail);
      var d' := Put(d, x.0, x.1);
      assert k in Keys(d') <==> k in Keys(d) || k == x.0;
      PutAllMembers(d', tail, k);
    }
  }

  /** `update` leaves the keys distinct. */
  lemma {:induction false} PutAllWellFormed(d: Dict, items: seq<(string, string)>)
    requires WellFormed(d)
    ensures WellFormed(PutAll(d, items))
    decreases |items|
  {
    if items != [] {
      var d' := Put(d, items[0].0, items[0].1);
      PutWellFormed(d, items[0].0, items[0].1);
      PutAllWellFormed(d', items[1..]);
    }
  }

  lemma PutWellFormed(d: Dict, k: string, v: string)
    requires WellFormed(d)
    ensures WellFormed(Put(d, k, v))
  {
    if k !in Keys(d) {
      var ks := Keys(d) + [k];
      assert forall i :: 0 <= i < |d| ==> ks[i] == Keys(d)[i];
    }
  }

  /** `zip(ks, vs)`: pairs up to the shorter list. */
  function Zip(ks: seq<string>, vs: seq<string>): (items: seq<(string, string)>)
    ensures |items| == if |ks| <= |vs| then |ks| else |vs|
    ensures forall i :: 0 <= i < |items| ==> items[i] == (ks[i], vs[i])
  {
    var n := if |ks| <= |vs| then |ks| else |vs|;
    seq(n, i requires 0 <= i < n => (ks[i], vs[i]))
  }
}
