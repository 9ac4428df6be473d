/** Near-duplicate clusters: the loop that unions every key with its LSH candidates. */
module Clusters {
  import opened UnionFind

  /** A chain of candidate pairs, each used in either direction. */
  ghost predicate Chain<T(!new)>(edges: set<(T, T)>, path: seq<T>) {
    path != [] && forall i :: 0 <= i < |path| - 1 ==> (path[i], path[i + 1]) in edges || (path[i + 1], path[i]) in edges
  }

  ghost predicate Connected<T(!new)>(edges: set<(T, T)>, a: T, b: T) {
    exists path :: Chain(edges, path) && path[0] == a && path[|path| - 1] == b
  }

  lemma ConnectedSelf<T(!new)>(edges: set<(T, T)>, a: T)
    ensures Connected(edges, a, a)
  {
    assert Chain(edges, [a]);
  }

  lemma ConnectedEdge<T(!new)>(edges: set<(T, T)>, a: T, b: T)
    requires (a, b) in edges
    ensures Connected(edges, a, b)
  {
    assert Chain(edges, [a, b]);
  }

  lemma ConnectedSymmetric<T(!new)>(edges: set<(T, T)>, a: T, b: T)
    requires Connected(edges, a, b)
    ensures Connected(edges, b, a)
  {
    var path :| Chain(edges, path) && path[0] == a && path[|path| - 1] == b;
    var back := seq(|path|, i requires 0 <= i < |path| => path[|path| - 1 - i]);
    forall i | 0 <= i < |back| - 1 ensures (back[i], back[i + 1]) in edges || (back[i + 1], back[i]) in edges {
      var j := |path| - 2 - i;
      assert back[i] == path[j + 1] && back[i + 1] == path[j];
    }
    assert Chain(edges, back);
  }

  lemma ConnectedTransitive<T(!new)>(edges: set<(T, T)>, a: T, b: T, c: T)
    requires Connected(edges, a, b) && Connected(edges, b, c)
    ensures Connected(edges, a, c)
  {
    var p :| Chain(edges, p) && p[0] == a && p[|p| - 1] == b;
    var q :| Chain(edges, q) && q[0] == b && q[|q| - 1] == c;
    var path := p + q[1..];
    forall i | 0 <= i < |path| - 1 ensures (path[i], path[i + 1]) in edges || (path[i + 1], path[i]) in edges {
      if i >= |p| - 1 {
        assert path[i] == q[i - (|p| - 1)] && path[i + 1] == q[i + 1 - (|p| - 1)];
      }
    }
    assert Chain(edges, path);
  }

  lemma ConnectedMonotone<T(!new)>(edges: set<(T, T)>, more: set<(T, T)>, a: T, b: T)
    requires edges <= more && Connected(edges, a, b)
    ensures Connected(more, a, b)
  {
    var path :| Chain(edges, path) && path[0] == a && path[|path| - 1] == b;
    assert Chain(more, path);
  }

  /** The classes are what the edges connect: an edge stays in a class, and a class hangs together. */
  ghost predicate Components<T(!new)>(edges: set<(T, T)>, rep: map<T, T>) {
    && (forall x :: x in rep ==> Connected(edges, x, rep[x]))
    && (forall e :: e in edges ==> e.0 in rep && e.1 in rep && rep[e.0] == rep[e.1])
  }

  lemma {:induction false} ChainStaysInClass<T(!new)>(edges: set<(T, T)>, rep: map<T, T>, path: seq<T>)
    requires Components(edges, rep) && Chain(edges, path) && path[0] in rep
    ensures path[|path| - 1] in rep && rep[path[|path| - 1]] == rep[path[0]]
  {
    if |path| > 1 {
      var front := path[..|path| - 1];
      assert Chain(edges, front);
      ChainStaysInClass(edges, rep, front);
    }
  }

  /** Two elements share a representative exactly when a chain of pairs connects them. */
  lemma ClassesAreComponents<T(!new)>(edges: set<(T, T)>, rep: map<T, T>, a: T, b: T)
    requires Components(edges, rep) && a in rep && b in rep
    ensures rep[a] == rep[b] <==> Connected(edges, a, b)
  {
    if rep[a] == rep[b] {
      ConnectedSymmetric(edges, b, rep[b]);
      ConnectedTransitive(edges, a, rep[a], b);
    }
    if Connected(edges, a, b) {
      var path :| Chain(edges, path) && path[0] == a && path[|path| - 1] == b;
      ChainStaysInClass(edges, rep, path);
    }
  }

  lemma SeenKeepsComponents<T(!new)>(edges: set<(T, T)>, rep: map<T, T>, x: T)
    requires Components(edges, rep)
    ensures Components(edges, Seen(rep, x))
  {
    hide Connected;
    ConnectedSelf(edges, x);
  }

  /** Merging the two classes of a pair makes exactly the pair's edge part of the components. */
  lemma MergeKeepsComponents<T(!new)>(edges: set<(T, T)>, rep: map<T, T>, x: T, y: T, r: T)
    requires Components(edges, rep) && x in rep && y in rep && (r == rep[x] || r == rep[y])
    ensures Components(edges + {(x, y)}, Merged(rep, rep[x], rep[y], r))
  {
    hide Connected;
    var more, rep' := edges + {(x, y)}, Merged(rep, rep[x], rep[y], r);
    forall z | z in rep ensures Connected(more, z, rep[z]) {
      ConnectedMonotone(edges, more, z, rep[z]);
    }
    ConnectedEdge(more, x, y);
    ConnectedSymmetric(more, x, rep[x]);
    ConnectedTransitive(more, rep[x], x, y);
    ConnectedTransitive(more, rep[x], y, rep[y]);
    ConnectedSymmetric(more, rep[x], rep[y]);
    ConnectedSelf(more, r);
    forall z | z in rep' ensures Connected(more, z, rep'[z]) {
      if rep[z] == rep[x] || rep[z] == rep[y] {
        ConnectedTransitive(more, z, rep[z], r);
      }
    }
  }

  /** The candidate pairs of the first keys. */
  ghost function Pairs<T(!new)>(keys: seq<T>, hits: T -> seq<T>): set<(T, T)> {
    set k, o | k in keys && o in hits(k) && o != k :: (k, o)
  }

  ghost function PairsOf<T(!new)>(k: T, others: seq<T>): set<(T, T)> {
    set o | o in others && o != k :: (k, o)
  }

  lemma UnionKeepsComponents<T(!new)>(edges: set<(T, T)>, rep: map<T, T>, x: T, y: T, rep': map<T, T>)
    requires Components(edges, rep)
    requires var seen := Seen(Seen(rep, x), y);
      rep' == Merged(seen, seen[x], seen[y], seen[x]) || rep' == Merged(seen, seen[x], seen[y], seen[y])
    ensures Components(edges + {(x, y)}, rep') && rep.Keys <= rep'.Keys
  {
    hide Components;
    var seen := Seen(Seen(rep, x), y);
    SeenKeepsComponents(edges, rep, x);
    SeenKeepsComponents(edges, Seen(rep, x), y);
    var root := if rep' == Merged(seen, seen[x], seen[y], seen[x]) then seen[x] else seen[y];
    MergeKeepsComponents(edges, seen, x, y, root);
  }

  /** Union one key with all its candidates but itself. */
  method UnionCandidates<T(==, !new)>(uf: UnionFind<T>, k: T, others: seq<T>, ghost edges: set<(T, T)>)
    requires uf.Valid() && Components(edges, uf.rep)
    modifies uf
    ensures uf.Valid() && Components(edges + PairsOf(k, others), uf.rep)
    ensures old(uf.rep).Keys <= uf.rep.Keys
  {
    hide Components, Merged, Seen;
    assert edges + PairsOf(k, others[..0]) == edges;
    for i := 0 to |others|
      invariant uf.Valid() && Components(edges + PairsOf(k, others[..i]), uf.rep)
      invariant old(uf.rep).Keys <= uf.rep.Keys
    {
      ghost var before := edges + PairsOf(k, others[..i]);
      var other := others[i];
      assert others[..i + 1] == others[..i] + [other];
      if other != k {
        ghost var rep := uf.rep;
        uf.Union(k, other);
        UnionKeepsComponents(before, rep, k, other, uf.rep);
        assert edges + PairsOf(k, others[..i + 1]) == before + {(k, other)};
      } else {
        assert edges + PairsOf(k, others[..i + 1]) == before;
      }
    }
    assert others[..|others|] == others;
  }

  lemma PairsStep<T(!new)>(keys: seq<T>, hits: T -> seq<T>, i: nat)
    requires i < |keys|
    ensures Pairs(keys[..i + 1], hits) == Pairs(keys[..i], hits) + PairsOf(keys[i], hits(keys[i]))
  {
    assert keys[..i + 1] == keys[..i] + [keys[i]];
  }

  lemma EmptyComponents<T(!new)>()
    ensures Components<T>({}, map[])
  {
  }

  method UnionAll<T(==, !new)>(keys: seq<T>, hits: T -> seq<T>) returns (uf: UnionFind<T>)
    ensures fresh(uf) && uf.Valid() && Components(Pairs(keys, hits), uf.rep)
  {
    hide Components;
    uf := new UnionFind<T>();
    EmptyComponents<T>();
    assert Pairs(keys[..0], hits) == {};
    for i := 0 to |keys|
      invariant uf.Valid() && fresh(uf) && Components(Pairs(keys[..i], hits), uf.rep)
    {
      UnionCandidates(uf, keys[i], hits(keys[i]), Pairs(keys[..i], hits));
      PairsStep(keys, hits, i);
    }
    assert keys[..|keys|] == keys;
  }

  lemma SeenKeeps<T>(rep: map<T, T>, x: T)
    ensures x in Seen(rep, x) && forall y :: y in rep ==> y in Seen(rep, x) && Seen(rep, x)[y] == rep[y]
  {
  }

  method AssignClusters<T(==, !new)>(uf: UnionFind<T>, keys: seq<T>, ghost edges: set<(T, T)>)
    returns (clusters: map<T, T>)
    requires uf.Valid() && Components(edges, uf.rep)
    modifies uf
    ensures uf.Valid() && Components(edges, uf.rep)
    ensures clusters.Keys == (set k | k in keys) && clusters.Keys <= uf.rep.Keys
    ensures forall k :: k in clusters ==> clusters[k] == uf.rep[k]
  {
    hide Components, Linked, Populous, Seen;
    clusters := map[];
    for i := 0 to |keys|
      invariant uf.Valid() && Components(edges, uf.rep)
      invariant clusters.Keys == (set k | k in keys[..i]) && clusters.Keys <= uf.rep.Keys
      invariant forall k :: k in clusters ==> clusters[k] == uf.rep[k]
    {
      SeenKeepsComponents(edges, uf.rep, keys[i]);
      SeenKeeps(uf.rep, keys[i]);
      var root, _ := uf.Find(keys[i]);
      clusters := clusters[keys[i] := root];
      assert keys[..i + 1] == keys[..i] + [keys[i]];
    }
    assert keys[..|keys|] == keys;
  }

  /** The clustering loops: cluster ids agree exactly on keys that a chain of candidate pairs connects. */
  method BuildClusters<T(==, !new)>(keys: seq<T>, hits: T -> seq<T>) returns (clusters: map<T, T>)
    ensures clusters.Keys == set k | k in keys
    ensures forall a, b :: a in keys && b in keys ==>
      (clusters[a] == clusters[b] <==> Connected(Pairs(keys, hits), a, b))
  {
    hide Components, Connected, Linked, Populous;
    var uf := UnionAll(keys, hits);
    ghost var edges := Pairs(keys, hits);
    clusters := AssignClusters(uf, keys, edges);
    forall a, b | a in keys && b in keys ensures clusters[a] == clusters[b] <==> Connected(edges, a, b) {
      ClassesAreComponents(edges, uf.rep, a, b);
    }
  }
}
