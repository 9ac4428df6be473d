/** Disjoint sets over dictionaries, with path halving and union by rank. */
module UnionFind {
  function Pow2(k: nat): (p: nat)
    ensures p >= 1
  {
    if k == 0 then 1 else 2 * Pow2(k - 1)
  }

  lemma {:induction false} Pow2Grows(j: nat, k: nat)
    requires j <= k
    ensures Pow2(j) <= Pow2(k)
  {
    if j < k {
      Pow2Grows(j, k - 1);
    }
  }

  /** The elements that a root represents. */
  function Class<T(!new)>(rep: map<T, T>, root: T): set<T> {
    set x | x in rep && rep[x] == root
  }

  /** x points one step up within its class, by a strictly rising rank, or represents itself. */
  ghost predicate LinkAt<T(!new)>(parent: map<T, T>, rank: map<T, nat>, rep: map<T, T>, x: T) {
    && x in parent && x in rank && x in rep
    && parent[x] in parent && parent[x] in rank && parent[x] in rep && rep[x] in rep
    && rep[parent[x]] == rep[x]
    && rep[rep[x]] == rep[x]
    && (parent[x] == x <==> rep[x] == x)
    && (parent[x] != x ==> rank[x] < rank[parent[x]])
  }

  /** Parent links lead to the representative of the class. */
  ghost predicate Linked<T(!new)>(parent: map<T, T>, rank: map<T, nat>, rep: map<T, T>) {
    && parent.Keys == rank.Keys == rep.Keys
    && forall x {:trigger LinkAt(parent, rank, rep, x)} :: x in parent ==> LinkAt(parent, rank, rep, x)
  }

  lemma InsertKeepsLinked<T(!new)>(parent: map<T, T>, rank: map<T, nat>, rep: map<T, T>, x: T)
    requires Linked(parent, rank, rep) && x !in parent
    ensures Linked(parent[x := x], rank[x := 0], rep[x := x])
  {
    var parent', rank', rep' := parent[x := x], rank[x := 0], rep[x := x];
    forall y | y in parent' ensures LinkAt(parent', rank', rep', y) {
      if y != x {
        assert LinkAt(parent, rank, rep, y);
      }
    }
  }

  lemma HalveKeepsLinked<T(!new)>(parent: map<T, T>, rank: map<T, nat>, rep: map<T, T>, x: T)
    requires Linked(parent, rank, rep) && x in parent && LinkAt(parent, rank, rep, x) && parent[x] != x
    ensures LinkAt(parent, rank, rep, parent[x])
    ensures Linked(parent[x := parent[parent[x]]], rank, rep)
  {
    assert LinkAt(parent, rank, rep, parent[x]);
    var parent' := parent[x := parent[parent[x]]];
    forall y | y in parent' ensures LinkAt(parent', rank, rep, y) {
      assert LinkAt(parent, rank, rep, y);
    }
  }

  /** The representatives after merging the classes of the roots a and b under r. */
  function Merged<T>(rep: map<T, T>, a: T, b: T, r: T): map<T, T> {
    map x | x in rep :: if rep[x] == a || rep[x] == b then r else rep[x]
  }

  lemma MergedAt<T>(rep: map<T, T>, a: T, b: T, r: T, y: T)
    requires y in rep
    ensures y in Merged(rep, a, b, r)
    ensures Merged(rep, a, b, r)[y] == if rep[y] == a || rep[y] == b then r else rep[y]
  {
  }

  lemma LinkKeepsAt<T(!new)>(parent: map<T, T>, rank: map<T, nat>, rep: map<T, T>, a: T, b: T, rank': map<T, nat>, y: T)
    requires LinkAt(parent, rank, rep, y) && LinkAt(parent, rank, rep, a) && LinkAt(parent, rank, rep, b)
    requires rep[a] == a && rep[b] == b && a != b
    requires rank'.Keys == rank.Keys && rank[b] < rank'[a] && rank[a] <= rank'[a]
    requires forall z :: z in rank && z != a ==> rank'[z] == rank[z]
    ensures LinkAt(parent[b := a], rank', Merged(rep, a, b, a), y)
  {
    MergedAt(rep, a, b, a, y);
    MergedAt(rep, a, b, a, a);
    MergedAt(rep, a, b, a, parent[y]);
    MergedAt(rep, a, b, a, rep[y]);
    hide Merged;
  }

  lemma LinkKeepsLinked<T(!new)>(parent: map<T, T>, rank: map<T, nat>, rep: map<T, T>, a: T, b: T, rank': map<T, nat>)
    requires Linked(parent, rank, rep) && a in rep && b in rep && rep[a] == a && rep[b] == b && a != b
    requires rank'.Keys == rank.Keys && rank[b] < rank'[a] && rank[a] <= rank'[a]
    requires forall y :: y in rank && y != a ==> rank'[y] == rank[y]
    ensures Linked(parent[b := a], rank', Merged(rep, a, b, a))
  {
    var parent', rep' := parent[b := a], Merged(rep, a, b, a);
    assert rep'.Keys == rep.Keys;
    forall y | y in parent' ensures LinkAt(parent', rank', rep', y) {
      assert LinkAt(parent, rank, rep, y) && LinkAt(parent, rank, rep, a) && LinkAt(parent, rank, rep, b);
      LinkKeepsAt(parent, rank, rep, a, b, rank', y);
    }
  }

  lemma MergedSymmetric<T>(rep: map<T, T>, a: T, b: T, r: T)
    ensures Merged(rep, a, b, r) == Merged(rep, b, a, r)
  {
  }

  lemma MergedSame<T>(rep: map<T, T>, r: T)
    ensures Merged(rep, r, r, r) == rep
  {
  }

  /** A root of rank k represents at least 2^k elements. */
  ghost predicate Populous<T(!new)>(rank: map<T, nat>, rep: map<T, T>) {
    rank.Keys == rep.Keys && forall r :: r in rep && rep[r] == r ==> |Class(rep, r)| >= Pow2(rank[r])
  }

  lemma ClassIsBounded<T(!new)>(rep: map<T, T>, root: T)
    ensures Class(rep, root) <= rep.Keys && |Class(rep, root)| <= |rep|
  {
    assert rep.Keys == Class(rep, root) + (rep.Keys - Class(rep, root));
    assert |rep.Keys| == |rep|;
  }

  /** The representatives after seeing x: a new element represents itself. */
  function Seen<T>(rep: map<T, T>, x: T): map<T, T> {
    if x in rep then rep else rep[x := x]
  }

  /** Rank never exceeds the rank of the representative. */
  lemma {:induction false} RankBelowRoot<T(!new)>(parent: map<T, T>, rank: map<T, nat>, rep: map<T, T>, x: T,
                                                  bound: nat)
    requires Linked(parent, rank, rep) && x in parent
    requires forall y :: y in rank ==> rank[y] <= bound
    ensures x in rep && rep[x] in rank && rank[x] <= rank[rep[x]]
    decreases bound - rank[x]
  {
    assert LinkAt(parent, rank, rep, x);
    if parent[x] != x {
      RankBelowRoot(parent, rank, rep, parent[x], bound);
    }
  }

  lemma RankIsBounded<T(!new)>(parent: map<T, T>, rank: map<T, nat>, rep: map<T, T>) returns (bound: nat)
    requires parent.Keys == rank.Keys
    ensures forall y :: y in rank ==> rank[y] <= bound
  {
    var keys := rank.Keys;
    bound := 0;
    var done: set<T> := {};
    while done != keys
      invariant done <= keys
      invariant forall y :: y in done ==> rank[y] <= bound
      decreases keys - done
    {
      assert exists y :: y in keys && y !in done;
      var y :| y in keys && y !in done;
      bound := if rank[y] > bound then rank[y] else bound;
      done := done + {y};
    }
  }

  lemma MergedClass<T(!new)>(rep: map<T, T>, a: T, b: T)
    requires a != b
    ensures Class(Merged(rep, a, b, a), a) == Class(rep, a) + Class(rep, b)
    ensures |Class(Merged(rep, a, b, a), a)| == |Class(rep, a)| + |Class(rep, b)|
  {
    assert Class(rep, a) !! Class(rep, b);
  }

  class UnionFind<T(==, !new)> {
    var parent: map<T, T>
    var rank: map<T, nat>
    ghost var rep: map<T, T>

    ghost predicate Valid()
      reads this
    {
      Linked(parent, rank, rep) && Populous(rank, rep)
    }

    constructor ()
      ensures Valid() && rep == map[]
    {
      parent, rank, rep := map[], map[], map[];
    }

    /**
     * find: no representative changes while the pointers on the way are halved, and the
     * loop runs at most half the rank of the root, rounded up; 2^rank is at most the
     * number of elements.
     */
    method Find(x0: T) returns (x: T, ghost steps: nat)
      requires Valid()
      modifies this
      ensures Valid() && rep == Seen(old(rep), x0)
      ensures x == rep[x0] && x in rep && rep[x] == x
      ensures forall y :: y in old(rank) ==> y in rank && rank[y] == old(rank)[y]
      ensures x0 in rank && x in rank && 2 * steps + rank[x0] <= rank[x] + 1 && Pow2(rank[x]) <= |rep|
    {
      x := x0;
      if x !in parent {
        Insert(x);
      }
      steps := 0;
      ghost var bound := RankIsBounded(parent, rank, rep);
      RankBelowRoot(parent, rank, rep, x, bound);
      while parent[x] != x
        invariant x in parent && x0 in parent && Linked(parent, rank, rep) && Populous(rank, rep)
        invariant rep == Seen(old(rep), x0) && rep[x] == rep[x0]
        invariant forall y :: y in old(rank) ==> y in rank && rank[y] == old(rank)[y]
        invariant forall y :: y in rank ==> rank[y] <= bound
        invariant rank[x] <= rank[rep[x]]
        invariant 2 * steps + rank[x0] <= rank[x] + (if parent[x] == x then 1 else 0)
        decreases bound - rank[x]
      {
        assert LinkAt(parent, rank, rep, x) && LinkAt(parent, rank, rep, parent[x]);
        Halve(x);
        assert LinkAt(parent, rank, rep, parent[x]);
        x := parent[x];
        steps := steps + 1;
        RankBelowRoot(parent, rank, rep, x, bound);
      }
      assert LinkAt(parent, rank, rep, x);
      ClassIsBounded(rep, x);
    }

    method Insert(x: T)
      requires Valid() && x !in parent
      modifies this
      ensures Valid() && rep == old(rep)[x := x] && x in parent && rank == old(rank)[x := 0]
    {
      InsertKeepsLinked(parent, rank, rep, x);
      parent := parent[x := x];
      rank := rank[x := 0];
      rep := rep[x := x];
      forall y | y in Class(rep, x) ensures y == x {
        assert y != x ==> LinkAt(old(parent), old(rank), old(rep), y);
      }
      assert Class(rep, x) == {x};
      forall r | r in rep && rep[r] == r ensures |Class(rep, r)| >= Pow2(rank[r]) {
        if r != x {
          assert Class(rep, r) == Class(old(rep), r);
        }
      }
    }

    /** One halving: the element now points to its grandparent. */
    method Halve(x: T)
      requires Valid() && x in parent && LinkAt(parent, rank, rep, x) && parent[x] != x
      requires LinkAt(parent, rank, rep, parent[x])
      modifies this`parent
      ensures Valid()
      ensures parent == old(parent)[x := old(parent)[old(parent)[x]]]
    {
      HalveKeepsLinked(parent, rank, rep, x);
      parent := parent[x := parent[parent[x]]];
    }

    /** union: exactly the two classes become one, represented by one of the two roots. */
    method Union(x: T, y: T)
      requires Valid()
      modifies this
      ensures Valid()
      ensures var seen := Seen(Seen(old(rep), x), y);
        || rep == Merged(seen, seen[x], seen[y], seen[x])
        || rep == Merged(seen, seen[x], seen[y], seen[y])
    {
      hide Linked, Populous, Merged;
      var rx, _ := Find(x);
      var ry, _ := Find(y);
      ghost var seen := rep;
      assert rx == seen[x] && ry == seen[y];
      if rx == ry {
        MergedSame(seen, rx);
        return;
      }
      if rank[rx] < rank[ry] {
        rx, ry := ry, rx;
      }
      Link(rx, ry);
      MergedSymmetric(seen, rx, ry, rx);
    }

    /** Hang root b under root a of no smaller rank. */
    method Link(a: T, b: T)
      requires Valid() && a in rep && b in rep && rep[a] == a && rep[b] == b && a != b && rank[a] >= rank[b]
      modifies this
      ensures Valid() && rep == Merged(old(rep), a, b, a)
    {
      LinkKeepsLinked(parent, rank, rep, a, b, if rank[b] == rank[a] then rank[a := rank[a] + 1] else rank);
      parent := parent[b := a];
      if rank[b] == rank[a] {
        rank := rank[a := rank[a] + 1];
      }
      rep := Merged(rep, a, b, a);
      MergedClass(old(rep), a, b);
      forall r | r in rep && rep[r] == r ensures |Class(rep, r)| >= Pow2(rank[r]) {
        if r != a {
          assert Class(rep, r) == Class(old(rep), r);
        }
      }
    }
  }
}
