/** A stable sort by a strict order, as Python's sorted() computes it. */
module Sorting {
  /** Put x behind everything it does not precede: one step of a stable sort. */
  function Insert<T>(less: (T, T) -> bool, sorted: seq<T>, x: T): (r: seq<T>)
    ensures |r| == |sorted| + 1
    ensures multiset(r) == multiset(sorted) + multiset{x}
  {
    if sorted == [] || !less(x, sorted[|sorted| - 1]) then sorted + [x]
    else
      var last := |sorted| - 1;
      assert sorted == sorted[..last] + [sorted[last]];
      Insert(less, sorted[..last], x) + [sorted[last]]
  }

  function Sort<T>(less: (T, T) -> bool, items: seq<T>): (r: seq<T>)
    ensures |r| == |items|
    ensures multiset(r) == multiset(items)
  {
    if items == [] then []
    else
      var last := |items| - 1;
      assert items == items[..last] + [items[last]];
      Insert(less, Sort(less, items[..last]), items[last])
  }

  ghost predicate Asymmetric<T(!new)>(less: (T, T) -> bool) {
    forall a, b :: less(a, b) ==> !less(b, a)
  }

  ghost predicate Transitive<T(!new)>(less: (T, T) -> bool) {
    forall a, b, c :: less(a, b) && less(b, c) ==> less(a, c)
  }

  ghost predicate StrictOrder<T(!new)>(less: (T, T) -> bool) { Asymmetric(less) && Transitive(less) }

  ghost predicate Ascending<T>(less: (T, T) -> bool, s: seq<T>) {
    forall i, j :: 0 <= i < j < |s| ==> less(s[i], s[j])
  }

  /** Any two positions hold elements that the order tells apart. */
  ghost predicate Comparable<T>(less: (T, T) -> bool, s: seq<T>) {
    forall i, j :: 0 <= i < j < |s| ==> less(s[i], s[j]) || less(s[j], s[i])
  }

  lemma {:induction false} InsertKeepsAscending<T(!new)>(less: (T, T) -> bool, s: seq<T>, x: T)
    requires StrictOrder(less) && Ascending(less, s)
    requires forall y :: y in s ==> less(x, y) || less(y, x)
    ensures Ascending(less, Insert(less, s, x))
  {
    if s != [] {
      var last := |s| - 1;
      if less(x, s[last]) {
        var front := Insert(less, s[..last], x);
        InsertKeepsAscending(less, s[..last], x);
        forall y | y in front ensures less(y, s[last]) {
          assert y in multiset(front);
        }
      }
    }
  }

  lemma {:induction false} SortAscends<T(!new)>(less: (T, T) -> bool, items: seq<T>)
    requires StrictOrder(less) && Comparable(less, items)
    ensures Ascending(less, Sort(less, items))
  {
    if items != [] {
      var last := |items| - 1;
      var front := Sort(less, items[..last]);
      SortAscends(less, items[..last]);
      forall y | y in front ensures less(items[last], y) || less(y, items[last]) {
        assert y in multiset(front);
        assert y in items[..last];
      }
      InsertKeepsAscending(less, front, items[last]);
    }
  }

  lemma SameLength<T>(p: seq<T>, q: seq<T>)
    requires multiset(p) == multiset(q)
    ensures |p| == |q|
  {
    assert |multiset(p)| == |p| && |multiset(q)| == |q|;
  }

  lemma FrontMultiset<T>(p: seq<T>)
    requires p != []
    ensures multiset(p[..|p| - 1]) == multiset(p) - multiset{p[|p| - 1]}
  {
    assert p == p[..|p| - 1] + [p[|p| - 1]];
  }

  lemma LastAgrees<T(!new)>(less: (T, T) -> bool, p: seq<T>, q: seq<T>)
    requires Asymmetric(less) && Ascending(less, p) && Ascending(less, q)
    requires multiset(p) == multiset(q) && |p| == |q| > 0
    ensures p[|p| - 1] == q[|q| - 1]
  {
    var m := |p| - 1;
    assert p[m] in multiset(q) && q[m] in multiset(p);
    var i :| 0 <= i <= m && q[i] == p[m];
    var j :| 0 <= j <= m && p[j] == q[m];
  }

  lemma {:induction false} AscendingIsUnique<T(!new)>(less: (T, T) -> bool, p: seq<T>, q: seq<T>)
    requires Asymmetric(less) && Ascending(less, p) && Ascending(less, q)
    requires multiset(p) == multiset(q)
    ensures p == q
  {
    SameLength(p, q);
    if p != [] {
      var m := |p| - 1;
      var p', q' := p[..m], q[..m];
      assert p[m] == q[m] by { LastAgrees(less, p, q); }
      assert multiset(p') == multiset(q') by { FrontMultiset(p); FrontMultiset(q); }
      AscendingIsUnique(less, p', q');
      assert p == p' + [p[m]];
      assert q == q' + [q[m]];
    }
  }

  lemma {:induction false} RepeatedIsIncomparable<T(!new)>(less: (T, T) -> bool, s: seq<T>, x: T)
    requires StrictOrder(less) && Comparable(less, s)
    ensures multiset(s)[x] <= 1
  {
    if s != [] {
      var last := |s| - 1;
      assert s == s[..last] + [s[last]];
      RepeatedIsIncomparable(less, s[..last], x);
    }
  }

  lemma PermutedComparable<T(!new)>(less: (T, T) -> bool, s: seq<T>, t: seq<T>)
    requires StrictOrder(less) && Comparable(less, s) && multiset(s) == multiset(t)
    ensures Comparable(less, t)
  {
    forall i, j | 0 <= i < j < |t| ensures less(t[i], t[j]) || less(t[j], t[i]) {
      assert t[i] in multiset(s) && t[j] in multiset(s);
      assert t == t[..j] + [t[j]] + t[j + 1..];
      assert t[i] in t[..j];
      RepeatedIsIncomparable(less, s, t[i]);
    }
  }

  /** Sorting forgets the order in which the elements arrived. */
  lemma SortForgetsOrder<T(!new)>(less: (T, T) -> bool, s: seq<T>, t: seq<T>)
    requires StrictOrder(less) && Comparable(less, s) && multiset(s) == multiset(t)
    ensures Sort(less, s) == Sort(less, t)
    ensures Ascending(less, Sort(less, s))
  {
    PermutedComparable(less, s, t);
    SortAscends(less, s);
    SortAscends(less, t);
    AscendingIsUnique(less, Sort(less, s), Sort(less, t));
  }
}
