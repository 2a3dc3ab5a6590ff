/** Code-point order on strings and the sorted listing of a finite set of strings.
    The Python tools sort dictionary keys, package paths and archive rows; every such
    sort is specified by `SortedSeq`, the only strictly increasing listing of a set. */
module Ordering {

  /** Strict code-point order, as `<` on Python strings. */
  predicate Less(a: string, b: string) {
    if b == "" then false
    else if a == "" then true
    else if a[0] != b[0] then a[0] < b[0]
    else Less(a[1..], b[1..])
  }

  lemma {:induction false} LessTrichotomy(a: string, b: string)
    ensures Less(a, b) || a == b || Less(b, a)
    ensures !(Less(a, b) && Less(b, a))
    ensures Less(a, b) ==> a != b
  {
    if a != "" && b != "" && a[0] == b[0] {
      LessTrichotomy(a[1..], b[1..]);
      assert a == [a[0]] + a[1..] && b == [b[0]] + b[1..];
    }
  }

  lemma {:induction false} LessTransitive(a: string, b: string, c: string)
    requires Less(a, b) && Less(b, c)
    ensures Less(a, c)
  {
    if a != "" && b != "" && c != "" && a[0] == b[0] == c[0] {
      LessTransitive(a[1..], b[1..], c[1..]);
    }
  }

  predicate StrictlySorted(q: seq<string>) {
    forall i, j :: 0 <= i < j < |q| ==> Less(q[i], q[j])
  }

  ghost predicate Lists(q: seq<string>, s: set<string>) {
    StrictlySorted(q) && forall k :: k in q <==> k in s
  }

  ghost predicate IsLeast(m: string, s: set<string>) {
    m in s && forall k :: k in s && k != m ==> Less(m, k)
  }

  lemma {:induction false} LeastExists(s: set<string>)
    requires s != {}
    ensures exists m :: IsLeast(m, s)
  {
    var x :| x in s;
    if s == {x} {
      assert IsLeast(x, s);
    } else {
      LeastExists(s - {x});
      var m :| IsLeast(m, s - {x});
      LessTrichotomy(x, m);
      if Less(x, m) {
        forall k | k in s && k != x ensures Less(x, k) {
          if k != m { LessTransitive(x, m, k); }
        }
        assert IsLeast(x, s);
      } else {
        assert IsLeast(m, s);
      }
    }
  }

  ghost function Least(s: set<string>): (m: string)
    requires s != {}
    ensures IsLeast(m, s)
  {
    LeastExists(s);
    var m :| IsLeast(m, s);
    m
  }

  /** The strictly increasing listing of `s`. */
  ghost function SortedSeq(s: set<string>): (q: seq<string>)
    ensures Lists(q, s)
    ensures |q| == |s|
  {
    if s == {} then []
    else
      var m := Least(s);
      var rest := SortedSeq(s - {m});
      assert forall i :: 0 <= i < |rest| ==> rest[i] in s - {m};
      [m] + rest
  }

  /** A set has only one strictly increasing listing. */
  lemma {:induction false} ListingUnique(p: seq<string>, q: seq<string>, s: set<string>)
    requires Lists(p, s) && Lists(q, s)
    ensures p == q
    decreases |p|
  {
    assert q == [] || q[0] in s;
    if p != [] {
      assert p[0] in s;
      assert q != [];
      assert q[0] in s && p[0] in q && q[0] in p;
      if p[0] != q[0] {
        assert Less(p[0], q[0]) && Less(q[0], p[0]);
        LessTrichotomy(p[0], q[0]);
        assert false;
      }
      forall k ensures k in p[1..] <==> k in s - {p[0]} {
        TailMembers(p, k);
      }
      forall k ensures k in q[1..] <==> k in s - {p[0]} {
        TailMembers(q, k);
      }
      ListingUnique(p[1..], q[1..], s - {p[0]});
      assert p == [p[0]] + p[1..] && q == [q[0]] + q[1..];
    }
  }

  lemma TailMembers(p: seq<string>, k: string)
    requires p != [] && StrictlySorted(p)
    ensures k in p[1..] <==> k in p && k != p[0]
  {
    if k in p[1..] {
      var i :| 0 <= i < |p[1..]| && p[1..][i] == k;
      assert Less(p[0], p[i + 1]);
      LessTrichotomy(p[0], k);
    }
    if k in p && k != p[0] {
      var i :| 0 <= i < |p| && p[i] == k;
      assert p[1..][i - 1] == k;
    }
  }

  /** Insertion sort of a set, as `sorted(...)` returns it. */
  method SortSet(s: set<string>) returns (q: seq<string>)
    ensures q == SortedSeq(s)
  {
    q := [];
    var todo, done := s, {};
    while todo != {}
      invariant todo + done == s && todo !! done
      invariant Lists(q, done)
      decreases todo
    {
      var k :| k in todo;
      q := Insert(q, k, done);
      todo, done := todo - {k}, done + {k};
    }
    assert done == s;
    ListingUnique(q, SortedSeq(s), s);
  }

  method Insert(q: seq<string>, k: string, ghost s: set<string>) returns (r: seq<string>)
    requires Lists(q, s) && k !in s
    ensures Lists(r, s + {k})
  {
    var i := 0;
    while i < |q| && Less(q[i], k)
      invariant 0 <= i <= |q|
      invariant forall j :: 0 <= j < i ==> Less(q[j], k)
    {
      i := i + 1;
    }
    r := q[..i] + [k] + q[i..];
    if i < |q| {
      assert q[i] in s;
      LessTrichotomy(q[i], k);
      forall j | i < j < |q| ensures Less(k, q[j]) {
        LessTransitive(k, q[i], q[j]);
      }
    }
    forall x ensures x in r <==> x in s + {k} {
      assert q == q[..i] + q[i..];
      assert x in r <==> x in q[..i] || x == k || x in q[i..];
      assert x in q <==> x in q[..i] || x in q[i..];
    }
    forall a, b | 0 <= a < b < |r| ensures Less(r[a], r[b]) {
      var x := if a < i then a else a - 1;
      var y := if b < i then b else b - 1;
    }
  }
}
