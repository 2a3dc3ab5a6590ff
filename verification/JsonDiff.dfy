/** `json_difference_paths`: the structural difference of two JSON values. */
module JsonDiff {
  import opened JsonModel
  import opened JsonPointer
  import opened Ordering
  import Decimal

  type Position = seq<string>

  /** What a difference is, without any traversal: `a` and `b` stop having the same shape at `t`. */
  ghost predicate Differs(a: Json, b: Json, t: Position)
    decreases |t|
  {
    if a.Obj? && b.Obj? then
      t != [] &&
      if t[0] in a.fields && t[0] in b.fields then Differs(a.fields[t[0]], b.fields[t[0]], t[1..])
      else |t| == 1 && (t[0] in a.fields || t[0] in b.fields)
    else if a.Arr? && b.Arr? && |a.items| == |b.items| then
      t != [] && exists i: nat ::
        i < |a.items| && t[0] == Decimal.Dec(i) && Differs(a.items[i], b.items[i], t[1..])
    else
      t == [] && a != b
  }

  function Under(k: string, ps: seq<Position>): (r: seq<Position>)
    ensures |r| == |ps| && forall i :: 0 <= i < |ps| ==> r[i] == [k] + ps[i]
  {
    seq(|ps|, i requires 0 <= i < |ps| => [k] + ps[i])
  }

  /** The differing positions in the order they are reported: keys sorted, items in order. */
  ghost function DiffPositions(a: Json, b: Json): seq<Position>
    decreases a, 1, 0
  {
    if !SameType(a, b) then [[]]
    else if a.Obj? then KeyPositions(a, b, SortedSeq(a.fields.Keys + b.fields.Keys))
    else if a.Arr? then if |a.items| != |b.items| then [[]] else ItemPositions(a, b, 0)
    else if a == b then [] else [[]]
  }

  ghost function KeyPositions(a: Json, b: Json, keys: seq<string>): seq<Position>
    requires a.Obj? && b.Obj?
    decreases a, 0, |keys|
  {
    if keys == [] then []
    else
      var k := keys[0];
      (if k !in a.fields || k !in b.fields then [[k]]
       else Under(k, DiffPositions(a.fields[k], b.fields[k]))) + KeyPositions(a, b, keys[1..])
  }

  ghost function ItemPositions(a: Json, b: Json, i: nat): seq<Position>
    requires a.Arr? && b.Arr? && |a.items| == |b.items| && i <= |a.items|
    decreases a, 0, |a.items| - i
  {
    if i == |a.items| then []
    else Under(Decimal.Dec(i), DiffPositions(a.items[i], b.items[i])) + ItemPositions(a, b, i + 1)
  }

  // ----- exactly the differences are reported

  lemma UnderMember(k: string, ps: seq<Position>, t: Position)
    ensures t in Under(k, ps) <==> t != [] && t[0] == k && t[1..] in ps
  {
    var r := Under(k, ps);
    if t in r {
      var i :| 0 <= i < |r| && r[i] == t;
      assert t[1..] == ps[i];
    }
    if t != [] && t[0] == k && t[1..] in ps {
      var i :| 0 <= i < |ps| && ps[i] == t[1..];
      assert r[i] == [k] + t[1..] == t;
    }
  }

  lemma {:induction false} ReportedExactly(a: Json, b: Json, t: Position)
    ensures t in DiffPositions(a, b) <==> Differs(a, b, t)
    decreases a, 1, 0
  {
    if a.Obj? && b.Obj? {
      KeysReportedExactly(a, b, SortedSeq(a.fields.Keys + b.fields.Keys), t);
    } else if a.Arr? && b.Arr? && |a.items| == |b.items| {
      ItemsReportedExactly(a, b, 0, t);
    }
  }

  lemma {:induction false} KeysReportedExactly(a: Json, b: Json, keys: seq<string>, t: Position)
    requires a.Obj? && b.Obj? && forall k :: k in keys ==> k in a.fields.Keys + b.fields.Keys
    ensures t in KeyPositions(a, b, keys) <==> t != [] && t[0] in keys && Differs(a, b, t)
    decreases a, 0, |keys|
  {
    if keys != [] {
      var k := keys[0];
      KeysReportedExactly(a, b, keys[1..], t);
      assert t != [] ==> (t[0] in keys <==> t[0] == k || t[0] in keys[1..]);
      OneKeyReportedExactly(a, b, keys, t);
    }
  }

  lemma OneKeyReportedExactly(a: Json, b: Json, keys: seq<string>, t: Position)
    requires a.Obj? && b.Obj? && keys != [] && keys[0] in a.fields.Keys + b.fields.Keys
    ensures t in KeyPositions(a, b, keys) <==>
            (t != [] && t[0] == keys[0] && Differs(a, b, t)) || t in KeyPositions(a, b, keys[1..])
    decreases a, 0, 0
  {
    var k := keys[0];
    if k in a.fields && k in b.fields {
      var ps := DiffPositions(a.fields[k], b.fields[k]);
      UnderMember(k, ps, t);
      if t != [] && t[0] == k { ReportedExactly(a.fields[k], b.fields[k], t[1..]); }
      hide DiffPositions;
    } else {
      assert t == [k] <==> t != [] && t[0] == k && |t| == 1;
    }
  }

  lemma {:induction false} ItemsReportedExactly(a: Json, b: Json, i: nat, t: Position)
    requires a.Arr? && b.Arr? && |a.items| == |b.items| && i <= |a.items|
    ensures t in ItemPositions(a, b, i) <==>
            t != [] && exists j: nat :: i <= j < |a.items| && t[0] == Decimal.Dec(j) && Differs(a.items[j], b.items[j], t[1..])
    decreases a, 0, |a.items| - i
  {
    hide DiffPositions, Decimal.Dec;
    if i < |a.items| {
      ItemsReportedExactly(a, b, i + 1, t);
      UnderMember(Decimal.Dec(i), DiffPositions(a.items[i], b.items[i]), t);
      if t != [] { ReportedExactly(a.items[i], b.items[i], t[1..]); }
    }
  }

  lemma EmptyOrInhabited<T>(q: seq<T>)
    ensures q == [] || exists t :: t in q
  {
    if q != [] { assert q[0] in q; }
  }

  lemma EqualOrDifferSomewhere<V>(m: map<string, V>, n: map<string, V>)
    requires m.Keys == n.Keys
    ensures m == n || exists k :: k in m && m[k] != n[k]
  {
  }

  // ----- no difference is reported exactly for equal values of equal types

  lemma {:induction false} EmptyExactlyWhenEqual(a: Json, b: Json)
    ensures DiffPositions(a, b) == [] <==> a == b
    decreases a
  {
    if a.Obj? && b.Obj? {
      if a == b {
        forall t ensures t !in DiffPositions(a, b) {
          ReportedExactly(a, b, t);
          if Differs(a, b, t) {
            EmptyExactlyWhenEqual(a.fields[t[0]], b.fields[t[0]]);
            ReportedExactly(a.fields[t[0]], b.fields[t[0]], t[1..]);
          }
        }
        EmptyOrInhabited(DiffPositions(a, b));
      } else {
        var t := DifferingKey(a, b);
        ReportedExactly(a, b, t);
      }
    } else if a.Arr? && b.Arr? && |a.items| == |b.items| {
      if a == b {
        forall t ensures t !in DiffPositions(a, b) {
          ReportedExactly(a, b, t);
          if Differs(a, b, t) {
            var i: nat :| i < |a.items| && t[0] == Decimal.Dec(i) && Differs(a.items[i], b.items[i], t[1..]);
            EmptyExactlyWhenEqual(a.items[i], b.items[i]);
            ReportedExactly(a.items[i], b.items[i], t[1..]);
          }
        }
        EmptyOrInhabited(DiffPositions(a, b));
      } else {
        assert a.items != b.items;
        var i: nat :| i < |a.items| && a.items[i] != b.items[i];
        EmptyExactlyWhenEqual(a.items[i], b.items[i]);
        var s := DiffPositions(a.items[i], b.items[i])[0];
        ReportedExactly(a.items[i], b.items[i], s);
        var t := [Decimal.Dec(i)] + s;
        assert t[1..] == s;
        ReportedExactly(a, b, t);
      }
    }
  }

  lemma DifferingKey(a: Json, b: Json) returns (t: Position)
    requires a.Obj? && b.Obj? && a != b
    ensures Differs(a, b, t)
    decreases a, 0
  {
    if k :| k in a.fields.Keys + b.fields.Keys && (k !in a.fields || k !in b.fields) {
      t := [k];
    } else {
      assert a.fields.Keys == b.fields.Keys;
      EqualOrDifferSomewhere(a.fields, b.fields);
      var k :| k in a.fields && a.fields[k] != b.fields[k];
      EmptyExactlyWhenEqual(a.fields[k], b.fields[k]);
      var s := DiffPositions(a.fields[k], b.fields[k])[0];
      ReportedExactly(a.fields[k], b.fields[k], s);
      t := [k] + s;
      assert t[1..] == s;
    }
  }

  // ----- symmetric, and nothing is reported twice

  lemma {:induction false} Symmetric(a: Json, b: Json)
    ensures DiffPositions(a, b) == DiffPositions(b, a)
    decreases a, 1, 0
  {
    if a.Obj? && b.Obj? {
      assert a.fields.Keys + b.fields.Keys == b.fields.Keys + a.fields.Keys;
      KeysSymmetric(a, b, SortedSeq(a.fields.Keys + b.fields.Keys));
    } else if a.Arr? && b.Arr? && |a.items| == |b.items| {
      ItemsSymmetric(a, b, 0);
    }
  }

  lemma {:induction false} KeysSymmetric(a: Json, b: Json, keys: seq<string>)
    requires a.Obj? && b.Obj?
    ensures KeyPositions(a, b, keys) == KeyPositions(b, a, keys)
    decreases a, 0, |keys|
  {
    if keys != [] {
      if keys[0] in a.fields && keys[0] in b.fields { Symmetric(a.fields[keys[0]], b.fields[keys[0]]); }
      KeysSymmetric(a, b, keys[1..]);
    }
  }

  lemma {:induction false} ItemsSymmetric(a: Json, b: Json, i: nat)
    requires a.Arr? && b.Arr? && |a.items| == |b.items| && i <= |a.items|
    ensures ItemPositions(a, b, i) == ItemPositions(b, a, i)
    decreases a, 0, |a.items| - i
  {
    if i < |a.items| {
      Symmetric(a.items[i], b.items[i]);
      ItemsSymmetric(a, b, i + 1);
    }
  }

  predicate NoDuplicates<T(==)>(q: seq<T>) {
    forall i, j :: 0 <= i < j < |q| ==> q[i] != q[j]
  }

  lemma DisjointConcat<T>(p: seq<T>, q: seq<T>)
    requires NoDuplicates(p) && NoDuplicates(q) && forall x :: x in p ==> x !in q
    ensures NoDuplicates(p + q)
  {
    forall i, j | 0 <= i < j < |p + q| ensures (p + q)[i] != (p + q)[j] {
      if i < |p| <= j { assert p[i] in p && q[j - |p|] in q; }
    }
  }

  lemma {:induction false} ReportedOnce(a: Json, b: Json)
    ensures NoDuplicates(DiffPositions(a, b))
    decreases a, 1, 0
  {
    if a.Obj? && b.Obj? {
      KeysReportedOnce(a, b, SortedSeq(a.fields.Keys + b.fields.Keys));
    } else if a.Arr? && b.Arr? && |a.items| == |b.items| {
      ItemsReportedOnce(a, b, 0);
    }
  }

  lemma {:induction false} KeysReportedOnce(a: Json, b: Json, keys: seq<string>)
    requires a.Obj? && b.Obj? && StrictlySorted(keys)
    ensures NoDuplicates(KeyPositions(a, b, keys))
    ensures forall t :: t in KeyPositions(a, b, keys) ==> t != [] && t[0] in keys
    decreases a, 0, |keys|
  {
    if keys != [] {
      var k := keys[0];
      KeysReportedOnce(a, b, keys[1..]);
      if k in a.fields && k in b.fields { ReportedOnce(a.fields[k], b.fields[k]); }
      TailMembers(keys, k);
      var head := if k !in a.fields || k !in b.fields then [[k]]
                  else Under(k, DiffPositions(a.fields[k], b.fields[k]));
      assert NoDuplicates(head) by {
        if k in a.fields && k in b.fields {
          var ps := DiffPositions(a.fields[k], b.fields[k]);
          forall i, j | 0 <= i < j < |ps| ensures head[i] != head[j] {
            assert head[i][1..] == ps[i] && head[j][1..] == ps[j];
          }
        }
      }
      DisjointConcat(head, KeyPositions(a, b, keys[1..]));
      assert keys == [k] + keys[1..];
    }
  }

  lemma {:induction false} ItemsReportedOnce(a: Json, b: Json, i: nat)
    requires a.Arr? && b.Arr? && |a.items| == |b.items| && i <= |a.items|
    ensures NoDuplicates(ItemPositions(a, b, i))
    decreases a, 0, |a.items| - i
  {
    if i < |a.items| {
      ItemsReportedOnce(a, b, i + 1);
      ReportedOnce(a.items[i], b.items[i]);
      var ps := DiffPositions(a.items[i], b.items[i]);
      var head := Under(Decimal.Dec(i), ps);
      forall x, y | 0 <= x < y < |ps| ensures head[x] != head[y] {
        assert head[x][1..] == ps[x] && head[y][1..] == ps[y];
      }
      forall t | t in head ensures t !in ItemPositions(a, b, i + 1) {
        ItemsReportedExactly(a, b, i + 1, t);
        if t in ItemPositions(a, b, i + 1) {
          var j: nat :| i + 1 <= j < |a.items| && t[0] == Decimal.Dec(j);
          Decimal.DecInjective(i, j);
        }
      }
      DisjointConcat(head, ItemPositions(a, b, i + 1));
    }
  }

  /** `p` is reported before `q`: where they part, at an earlier key or item. */
  ghost predicate Before(a: Json, b: Json, p: Position, q: Position)
    decreases |p|
  {
    && p != [] && q != []
    && if a.Obj? && b.Obj? then
         if p[0] != q[0] then Less(p[0], q[0])
         else p[0] in a.fields && p[0] in b.fields && Before(a.fields[p[0]], b.fields[p[0]], p[1..], q[1..])
       else
         && a.Arr? && b.Arr? && |a.items| == |b.items|
         && exists i: nat, j: nat :: i <= j < |a.items| && p[0] == Decimal.Dec(i) && q[0] == Decimal.Dec(j)
                                     && (i < j || Before(a.items[i], b.items[i], p[1..], q[1..]))
  }

  ghost predicate InOrder(a: Json, b: Json, ps: seq<Position>) {
    forall i, j :: 0 <= i < j < |ps| ==> Before(a, b, ps[i], ps[j])
  }

  lemma OrderedConcat(a: Json, b: Json, p: seq<Position>, q: seq<Position>)
    requires InOrder(a, b, p) && InOrder(a, b, q) && forall x, y :: x in p && y in q ==> Before(a, b, x, y)
    ensures InOrder(a, b, p + q)
  {
    hide Before;
    forall i, j | 0 <= i < j < |p + q| ensures Before(a, b, (p + q)[i], (p + q)[j]) {
      if i < |p| <= j { assert p[i] in p && q[j - |p|] in q; }
    }
  }

  lemma KeyOrdered(a: Json, b: Json, k: string)
    requires a.Obj? && b.Obj? && k in a.fields && k in b.fields
    requires InOrder(a.fields[k], b.fields[k], DiffPositions(a.fields[k], b.fields[k]))
    ensures InOrder(a, b, Under(k, DiffPositions(a.fields[k], b.fields[k])))
  {
    var ps := DiffPositions(a.fields[k], b.fields[k]);
    hide DiffPositions;
    var head := Under(k, ps);
    forall i, j | 0 <= i < j < |head| ensures Before(a, b, head[i], head[j]) {
      assert head[i][1..] == ps[i] && head[j][1..] == ps[j];
      assert Before(a.fields[k], b.fields[k], ps[i], ps[j]);
    }
  }

  lemma ItemOrdered(a: Json, b: Json, k: nat)
    requires a.Arr? && b.Arr? && |a.items| == |b.items| && k < |a.items|
    requires InOrder(a.items[k], b.items[k], DiffPositions(a.items[k], b.items[k]))
    ensures InOrder(a, b, Under(Decimal.Dec(k), DiffPositions(a.items[k], b.items[k])))
  {
    var ps := DiffPositions(a.items[k], b.items[k]);
    hide DiffPositions, Decimal.Dec;
    var head := Under(Decimal.Dec(k), ps);
    forall i, j | 0 <= i < j < |head| ensures Before(a, b, head[i], head[j]) {
      assert head[i][1..] == ps[i] && head[j][1..] == ps[j];
      assert Before(a.items[k], b.items[k], ps[i], ps[j]);
    }
  }

  /** Differences are reported by growing key and by item, at every level. */
  lemma {:induction false} ReportedInOrder(a: Json, b: Json)
    ensures InOrder(a, b, DiffPositions(a, b))
    decreases a, 1, 0
  {
    if a.Obj? && b.Obj? {
      KeysInOrder(a, b, SortedSeq(a.fields.Keys + b.fields.Keys));
    } else if a.Arr? && b.Arr? && |a.items| == |b.items| {
      ItemsInOrder(a, b, 0);
    }
  }

  lemma {:induction false} KeysInOrder(a: Json, b: Json, keys: seq<string>)
    requires a.Obj? && b.Obj? && StrictlySorted(keys)
    ensures InOrder(a, b, KeyPositions(a, b, keys))
    decreases a, 0, |keys|
  {
    if keys != [] {
      var k, rest := keys[0], KeyPositions(a, b, keys[1..]);
      KeysInOrder(a, b, keys[1..]);
      KeysReportedOnce(a, b, keys[1..]);
      var head := if k !in a.fields || k !in b.fields then [[k]]
                  else Under(k, DiffPositions(a.fields[k], b.fields[k]));
      if k in a.fields && k in b.fields {
        ReportedInOrder(a.fields[k], b.fields[k]);
        KeyOrdered(a, b, k);
      }
      forall x, y | x in head && y in rest ensures Before(a, b, x, y) {
        KeyBefore(a, b, keys, x, y);
      }
      hide DiffPositions, InOrder, Under;
      OrderedConcat(a, b, head, rest);
    }
  }

  lemma KeyBefore(a: Json, b: Json, keys: seq<string>, x: Position, y: Position)
    requires a.Obj? && b.Obj? && StrictlySorted(keys) && keys != []
    requires x != [] && x[0] == keys[0] && y != [] && y[0] in keys[1..]
    ensures Before(a, b, x, y)
  {
    hide Less;
    var i :| 0 <= i < |keys| - 1 && keys[1..][i] == y[0];
    assert Less(keys[0], keys[i + 1]);
    LessTrichotomy(keys[0], keys[i + 1]);
  }

  lemma {:induction false} ItemsInOrder(a: Json, b: Json, i: nat)
    requires a.Arr? && b.Arr? && |a.items| == |b.items| && i <= |a.items|
    ensures InOrder(a, b, ItemPositions(a, b, i))
    decreases a, 0, |a.items| - i
  {
    if i < |a.items| {
      ItemsInOrder(a, b, i + 1);
      ReportedInOrder(a.items[i], b.items[i]);
      ItemOrdered(a, b, i);
      var head, rest := Under(Decimal.Dec(i), DiffPositions(a.items[i], b.items[i])), ItemPositions(a, b, i + 1);
      forall x, y | x in head && y in rest ensures Before(a, b, x, y) {
        UnderMember(Decimal.Dec(i), DiffPositions(a.items[i], b.items[i]), x);
        ItemsReportedExactly(a, b, i + 1, y);
        var j: nat :| i + 1 <= j < |a.items| && y[0] == Decimal.Dec(j);
        hide Differs, DiffPositions, Decimal.Dec, InOrder;
        assert i <= j < |a.items| && x[0] == Decimal.Dec(i) && y[0] == Decimal.Dec(j) && i < j;
      }
      hide DiffPositions, InOrder, Under;
      OrderedConcat(a, b, head, rest);
    }
  }

  // ----- the reported strings

  /** The strings reported for `ps` when the comparison started below `base`. */
  ghost function Rendered(base: Position, ps: seq<Position>): (r: seq<string>)
    ensures |r| == |ps| && forall i :: 0 <= i < |ps| ==> r[i] == Show(base + ps[i])
  {
    seq(|ps|, i requires 0 <= i < |ps| => Show(base + ps[i]))
  }

  lemma RenderedUnder(base: Position, k: string, ps: seq<Position>)
    ensures Rendered(base, Under(k, ps)) == Rendered(base + [k], ps)
  {
    forall i | 0 <= i < |ps|
      ensures Rendered(base, Under(k, ps))[i] == Rendered(base + [k], ps)[i]
    {
      assert base + ([k] + ps[i]) == base + [k] + ps[i];
    }
  }

  lemma RenderedConcat(base: Position, p: seq<Position>, q: seq<Position>)
    ensures Rendered(base, p + q) == Rendered(base, p) + Rendered(base, q)
  {
  }

  lemma PointerSnoc(base: Position, k: string)
    ensures Pointer(base + [k]) == Pointer(base) + "/" + Escape(k)
  {
    assert (base + [k])[..|base|] == base;
  }

  lemma KeysStep(a: Json, b: Json, base: Position, keys: seq<string>, n: nat)
    requires a.Obj? && b.Obj? && n < |keys|
    ensures var k := keys[n];
            Rendered(base, KeyPositions(a, b, keys[n..])) ==
            (if k !in a.fields || k !in b.fields then [Pointer(base) + "/" + Escape(k)]
             else Rendered(base + [k], DiffPositions(a.fields[k], b.fields[k])))
            + Rendered(base, KeyPositions(a, b, keys[n + 1..]))
  {
    var k := keys[n];
    var rest := KeyPositions(a, b, keys[n + 1..]);
    assert keys[n..][0] == k && keys[n..][1..] == keys[n + 1..];
    PointerSnoc(base, k);
    if k !in a.fields || k !in b.fields {
      RenderedConcat(base, [[k]], rest);
      assert Rendered(base, [[k]]) == [Show(base + [k])];
    } else {
      var ps := DiffPositions(a.fields[k], b.fields[k]);
      RenderedConcat(base, Under(k, ps), rest);
      RenderedUnder(base, k, ps);
    }
  }

  lemma ItemsStep(a: Json, b: Json, base: Position, i: nat)
    requires a.Arr? && b.Arr? && |a.items| == |b.items| && i < |a.items|
    ensures Rendered(base, ItemPositions(a, b, i)) ==
            Rendered(base + [Decimal.Dec(i)], DiffPositions(a.items[i], b.items[i]))
            + Rendered(base, ItemPositions(a, b, i + 1))
  {
    var ps := DiffPositions(a.items[i], b.items[i]);
    RenderedConcat(base, Under(Decimal.Dec(i), ps), ItemPositions(a, b, i + 1));
    RenderedUnder(base, Decimal.Dec(i), ps);
  }

  lemma RenderedRoot(base: Position, root: string)
    requires root == if Pointer(base) == "" then "/" else Pointer(base)
    ensures Rendered(base, [[]]) == [root]
  {
    assert base + [] == base;
  }

  lemma Regroup<T>(x: seq<T>, y: seq<T>, z: seq<T>)
    ensures x + (y + z) == x + y + z
  {
  }

  /** The recursive comparison with its local list of differences. */
  method JsonDifferencePaths(a: Json, b: Json, prefix: string, ghost base: Position)
      returns (differences: seq<string>)
    requires prefix == Pointer(base)
    ensures differences == Rendered(base, DiffPositions(a, b))
    decreases a, 1
  {
    var root := if prefix == "" then "/" else prefix;
    RenderedRoot(base, root);
    if !SameType(a, b) {
      differences := [root];
    } else if a.Obj? {
      differences := DictDifferences(a, b, prefix, base);
    } else if a.Arr? {
      if |a.items| != |b.items| {
        differences := [root];
      } else {
        differences := ListDifferences(a, b, prefix, base);
      }
    } else {
      differences := if a == b then [] else [root];
    }
  }

  method DictDifferences(a: Json, b: Json, prefix: string, ghost base: Position)
      returns (differences: seq<string>)
    requires a.Obj? && b.Obj? && prefix == Pointer(base)
    ensures differences == Rendered(base, DiffPositions(a, b))
    decreases a, 0
  {
    differences := [];
    var keys := SortSet(a.fields.Keys + b.fields.Keys);
    ghost var all := Rendered(base, KeyPositions(a, b, keys));
    assert keys[0..] == keys;
    for n := 0 to |keys|
      invariant all == differences + Rendered(base, KeyPositions(a, b, keys[n..]))
    {
      var k := keys[n];
      var path := prefix + "/" + Escape(k);
      KeysStep(a, b, base, keys, n);
      ghost var rest := Rendered(base, KeyPositions(a, b, keys[n + 1..]));
      if k !in a.fields || k !in b.fields {
        Regroup(differences, [path], rest);
        differences := differences + [path];
      } else {
        PointerSnoc(base, k);
        var inner := JsonDifferencePaths(a.fields[k], b.fields[k], path, base + [k]);
        Regroup(differences, inner, rest);
        differences := differences + inner;
      }
    }
  }

  method ListDifferences(a: Json, b: Json, prefix: string, ghost base: Position)
      returns (differences: seq<string>)
    requires a.Arr? && b.Arr? && |a.items| == |b.items| && prefix == Pointer(base)
    ensures differences == Rendered(base, DiffPositions(a, b))
    decreases a, 0
  {
    differences := [];
    ghost var all := Rendered(base, ItemPositions(a, b, 0));
    for i := 0 to |a.items|
      invariant all == differences + Rendered(base, ItemPositions(a, b, i))
    {
      var token := Decimal.Dec(i);
      ItemsStep(a, b, base, i);
      PointerSnoc(base, token);
      var inner := JsonDifferencePaths(a.items[i], b.items[i], prefix + "/" + Escape(token), base + [token]);
      differences := differences + inner;
    }
  }

  /** The report of a whole comparison, started at the root. */
  ghost function DifferencePaths(a: Json, b: Json): seq<string> {
    Rendered([], DiffPositions(a, b))
  }

  lemma PathsReportedOnce(a: Json, b: Json)
    ensures NoDuplicates(DifferencePaths(a, b))
  {
    var ps := DiffPositions(a, b);
    ReportedOnce(a, b);
    forall i, j | 0 <= i < j < |ps| ensures Show([] + ps[i]) != Show([] + ps[j]) {
      assert [] + ps[i] == ps[i] && [] + ps[j] == ps[j];
      ShowCollision(ps[i], ps[j]);
      assert ps[i] in ps && ps[j] in ps;
      ReportedExactly(a, b, ps[i]);
      ReportedExactly(a, b, ps[j]);
    }
  }

  /** The report does not separate a changed root from a changed key "". */
  lemma RootLooksLikeEmptyKey()
    ensures DifferencePaths(Int(1), Int(2)) == ["/"]
    ensures DifferencePaths(Obj(map["" := Int(1)]), Obj(map["" := Int(2)])) == ["/"]
  {
    assert DifferencePaths(Int(1), Int(2)) == ["/"] by {
      assert DiffPositions(Int(1), Int(2)) == [[]];
      assert DifferencePaths(Int(1), Int(2))[0] == "/";
    }
    EmptyKeyReported();
  }

  lemma EmptyKeyPositions(a: Json, b: Json)
    requires a == Obj(map["" := Int(1)]) && b == Obj(map["" := Int(2)])
    ensures DiffPositions(a, b) == [[""]]
  {
    var keys := SortedSeq(a.fields.Keys + b.fields.Keys);
    assert a.fields.Keys + b.fields.Keys == {""};
    ListingUnique(keys, [""], {""});
    assert KeyPositions(a, b, [""]) == Under("", [[]]) + KeyPositions(a, b, []);
    assert Under("", [[]]) == [[""]];
  }

  lemma EmptyKeyShown()
    ensures Show([""]) == "/"
  {
    assert Pointer([""]) == "/" by { assert [""][..0] == []; }
  }

  lemma EmptyKeyReported()
    ensures DifferencePaths(Obj(map["" := Int(1)]), Obj(map["" := Int(2)])) == ["/"]
  {
    hide DiffPositions, Show;
    var a, b := Obj(map["" := Int(1)]), Obj(map["" := Int(2)]);
    EmptyKeyPositions(a, b);
    EmptyKeyShown();
    assert [] + [""] == [""];
    assert DifferencePaths(a, b)[0] == "/";
  }
}
