/** Stable sorting by a strict order, as Python's `sorted` and `list.sort` do it. */
module Sorting {

  /** `e` goes behind everything that is not greater. */
  function Insert<T>(less: (T, T) -> bool, e: T, q: seq<T>): seq<T> {
    if q == [] || !less(e, q[|q| - 1]) then q + [e]
    else Insert(less, e, q[..|q| - 1]) + [q[|q| - 1]]
  }

  function Sort<T>(less: (T, T) -> bool, q: seq<T>): seq<T> {
    if q == [] then [] else Insert(less, q[|q| - 1], Sort(less, q[..|q| - 1]))
  }

  /** Nothing is less than what comes before it. */
  ghost predicate Sorted<T>(less: (T, T) -> bool, q: seq<T>) {
    forall i, j :: 0 <= i < j < |q| ==> !less(q[j], q[i])
  }

  /** `less` compares keys of a totally ordered type. */
  ghost predicate StrictOrder<T(!new)>(less: (T, T) -> bool) {
    && (forall x, y :: less(x, y) ==> !less(y, x))
    && forall x, y, z :: !less(y, x) && !less(z, y) ==> !less(z, x)
  }

  lemma {:induction false} InsertPermutes<T>(less: (T, T) -> bool, e: T, q: seq<T>)
    ensures multiset(Insert(less, e, q)) == multiset(q) + multiset{e}
  {
    if q != [] && less(e, q[|q| - 1]) {
      assert q == q[..|q| - 1] + [q[|q| - 1]];
      InsertPermutes(less, e, q[..|q| - 1]);
    }
  }

  lemma {:induction false} InsertSorts<T(!new)>(less: (T, T) -> bool, e: T, q: seq<T>)
    requires StrictOrder(less) && Sorted(less, q)
    ensures Sorted(less, Insert(less, e, q))
  {
    if q != [] {
      var init, last := q[..|q| - 1], q[|q| - 1];
      if less(e, last) {
        InsertSorts(less, e, init);
        var r := Insert(less, e, init);
        forall i | 0 <= i < |r| ensures !less(last, r[i]) {
          InsertPermutes(less, e, init);
          assert r[i] in multiset(r);
          if r[i] != e {
            assert r[i] in init;
          }
        }
      }
    }
  }

  /** Sorting keeps every element as often as it was there. */
  lemma {:induction false} SortPermutes<T>(less: (T, T) -> bool, q: seq<T>)
    ensures multiset(Sort(less, q)) == multiset(q) && |Sort(less, q)| == |q|
    ensures forall x :: x in Sort(less, q) <==> x in q
  {
    hide Insert;
    if q != [] {
      assert q == q[..|q| - 1] + [q[|q| - 1]];
      SortPermutes(less, q[..|q| - 1]);
      InsertPermutes(less, q[|q| - 1], Sort(less, q[..|q| - 1]));
    }
    SameMembers(Sort(less, q), q);
  }

  lemma SameMembers<T>(a: seq<T>, b: seq<T>)
    requires multiset(a) == multiset(b)
    ensures |a| == |b| && forall x :: x in a <==> x in b
  {
    assert |multiset(a)| == |a| && |multiset(b)| == |b|;
    assert forall x :: x in a <==> x in multiset(a);
    assert forall x :: x in b <==> x in multiset(b);
  }

  lemma {:induction false} SortSorts<T(!new)>(less: (T, T) -> bool, q: seq<T>)
    requires StrictOrder(less)
    ensures Sorted(less, Sort(less, q))
  {
    hide Insert, StrictOrder;
    if q != [] {
      SortSorts(less, q[..|q| - 1]);
      InsertSorts(less, q[|q| - 1], Sort(less, q[..|q| - 1]));
    }
  }

  // ----- distinct keys

  ghost predicate Distinct<T>(key: T -> int, q: seq<T>) {
    forall i, j :: 0 <= i < j < |q| ==> key(q[i]) != key(q[j])
  }

  lemma {:induction false} AtMostOnce<T>(key: T -> int, q: seq<T>, x: T)
    requires Distinct(key, q)
    ensures multiset(q)[x] <= 1
  {
    if q != [] {
      var init, last := q[..|q| - 1], q[|q| - 1];
      assert q == init + [last];
      AtMostOnce(key, init, x);
      forall i | 0 <= i < |init| ensures init[i] != last {
        assert key(q[i]) != key(q[|q| - 1]);
      }
      assert last !in multiset(init);
    }
  }

  lemma Twice<T>(q: seq<T>, i: nat, j: nat)
    requires i < j < |q| && q[i] == q[j]
    ensures multiset(q)[q[i]] >= 2
  {
    assert q == q[..j] + q[j..];
    assert q[..j][i] == q[i] && q[j..][0] == q[j];
    assert q[i] in multiset(q[..j]) && q[i] in multiset(q[j..]);
  }

  lemma SameKeySameElement<T>(key: T -> int, q: seq<T>, x: T, y: T)
    requires Distinct(key, q) && x in q && y in q && key(x) == key(y)
    ensures x == y
  {
    var i :| 0 <= i < |q| && q[i] == x;
    var j :| 0 <= j < |q| && q[j] == y;
    assert !(i < j) && !(j < i);
  }

  /** Rearranging elements with distinct keys leaves the keys distinct. */
  lemma DistinctPermuted<T>(key: T -> int, a: seq<T>, b: seq<T>)
    requires multiset(a) == multiset(b) && Distinct(key, a)
    ensures Distinct(key, b)
  {
    SameMembers(a, b);
    forall i, j | 0 <= i < j < |b| ensures key(b[i]) != key(b[j]) {
      AtMostOnce(key, a, b[i]);
      if key(b[i]) == key(b[j]) {
        SameKeySameElement(key, a, b[i], b[j]);
        Twice(b, i, j);
      }
    }
  }

  /** Smaller keys first. */
  function ByKey<T>(key: T -> int): (T, T) -> bool {
    (x, y) => key(x) < key(y)
  }

  ghost predicate Increasing<T>(key: T -> int, q: seq<T>) {
    forall i, j :: 0 <= i < j < |q| ==> key(q[i]) < key(q[j])
  }

  /** Elements with distinct keys end in strictly increasing order of their keys. */
  lemma SortIncreases<T(!new)>(key: T -> int, q: seq<T>)
    requires Distinct(key, q)
    ensures Increasing(key, Sort(ByKey(key), q))
  {
    var r := Sort(ByKey(key), q);
    SortSorts(ByKey(key), q);
    SortPermutes(ByKey(key), q);
    DistinctPermuted(key, q, r);
    forall i, j | 0 <= i < j < |r| ensures key(r[i]) < key(r[j]) {
      assert !ByKey(key)(r[j], r[i]);
    }
  }

  function ToSet<T(==)>(q: seq<T>): set<T> {
    set x | x in q
  }

  /** `len(set(q)) == len(q)` */
  lemma {:induction false} DistinctBySize<T>(q: seq<T>)
    ensures |ToSet(q)| <= |q|
    ensures |ToSet(q)| == |q| <==> forall i, j :: 0 <= i < j < |q| ==> q[i] != q[j]
  {
    if q != [] {
      var init, last := q[..|q| - 1], q[|q| - 1];
      assert q == init + [last];
      DistinctBySize(init);
      assert ToSet(q) == ToSet(init) + {last};
      if last in ToSet(init) {
        assert ToSet(q) == ToSet(init);
        var i :| 0 <= i < |init| && init[i] == last;
        assert q[i] == q[|q| - 1];
      }
    }
  }
}
