/** Union-find with path halving (the nested find and the links of _components in tools/map_pipeline/graph.py and
    manifest_schema.py, and of _part_clusters in tools/map_pipeline/patches.py). A parent list is the map from its
    indices. */
module Forest {
  import opened Walks

  ghost predicate IsForest(parent: map<int, int>, root: map<int, int>, rank: map<int, nat>) {
    root.Keys == parent.Keys && rank.Keys == parent.Keys &&
    forall x {:trigger GoodNode(parent, root, rank, x)} :: x in parent ==> GoodNode(parent, root, rank, x)
  }

  ghost predicate GoodNode(parent: map<int, int>, root: map<int, int>, rank: map<int, nat>, x: int)
    requires root.Keys == parent.Keys && rank.Keys == parent.Keys && x in parent
  {
    parent[x] in parent && root[x] in parent && parent[root[x]] == root[x] && root[parent[x]] == root[x] &&
    (parent[x] == x <==> root[x] == x) && (parent[x] != x ==> rank[parent[x]] < rank[x])
  }

  ghost function Merged(root: map<int, int>, child: int, top: int): map<int, int> {
    map x | x in root :: if root[x] == child then top else root[x]
  }

  ghost function Deepened(root: map<int, int>, rank: map<int, nat>, child: int, top: int): map<int, nat>
    requires root.Keys == rank.Keys && top in rank
  {
    map x | x in rank :: if root[x] == child then rank[x] + rank[top] + 1 else rank[x]
  }

  lemma Halve(parent: map<int, int>, root: map<int, int>, rank: map<int, nat>, x: int)
    requires IsForest(parent, root, rank) && x in parent && parent[x] != x
    ensures parent[x] in parent && parent[parent[x]] in parent
    ensures IsForest(parent[x := parent[parent[x]]], root, rank)
    ensures rank[parent[parent[x]]] < rank[x] && root[parent[parent[x]]] == root[x]
  {
    assert GoodNode(parent, root, rank, x) && GoodNode(parent, root, rank, parent[x]);
    assert GoodNode(parent, root, rank, root[x]);
    var halved := parent[x := parent[parent[x]]];
    forall y | y in halved
      ensures GoodNode(halved, root, rank, y)
    {
      assert GoodNode(parent, root, rank, y) && GoodNode(parent, root, rank, root[y]);
    }
  }

  lemma Hang(parent: map<int, int>, root: map<int, int>, rank: map<int, nat>, child: int, top: int)
    requires IsForest(parent, root, rank) && child in parent && top in parent
    requires root[child] == child && root[top] == top && child != top
    ensures IsForest(parent[child := top], Merged(root, child, top), Deepened(root, rank, child, top))
  {
    assert GoodNode(parent, root, rank, child) && GoodNode(parent, root, rank, top);
    var p, r, k := parent[child := top], Merged(root, child, top), Deepened(root, rank, child, top);
    forall y | y in p
      ensures GoodNode(p, r, k, y)
    {
      assert GoodNode(parent, root, rank, y) && GoodNode(parent, root, rank, parent[y]) &&
        GoodNode(parent, root, rank, root[y]);
    }
  }

  class UnionFind {
    var parent: map<int, int>
    ghost var root: map<int, int>   // the root each element leads to
    ghost var rank: map<int, nat>   // falls along every link that is not a root's own

    ghost predicate Valid()
      reads this
    {
      IsForest(parent, root, rank)
    }

    /** Links run downwards, as when the larger root is always hung under the smaller. */
    ghost predicate Descending()
      reads this
    {
      forall x :: x in parent ==> parent[x] <= x
    }

    constructor (ids: set<int>)
      ensures Valid() && Descending() && parent.Keys == ids
      ensures forall x :: x in ids ==> root[x] == x
    {
      parent := map i | i in ids :: i;
      root := map i | i in ids :: i;
      rank := map i | i in ids :: 0;
    }

    /** Finds the root of an element, halving the path on the way. Classes and their roots do not change. */
    method Find(start: int) returns (x: int)
      requires Valid() && start in parent
      modifies this
      ensures Valid() && root == old(root) && parent.Keys == old(parent.Keys)
      ensures x == root[start]
      ensures old(Descending()) ==> Descending()
    {
      x := start;
      assert GoodNode(parent, root, rank, x);
      while parent[x] != x
        invariant Valid() && rank == old(rank) && root == old(root) && parent.Keys == old(parent.Keys)
        invariant x in parent && root[x] == root[start]
        invariant old(Descending()) ==> Descending()
        decreases rank[x]
      {
        Halve(parent, root, rank, x);
        assert GoodNode(parent, root, rank, parent[x]);
        parent := parent[x := parent[parent[x]]];
        x := parent[x];
      }
      assert GoodNode(parent, root, rank, x);
    }

    /** Hangs one root under another: the two classes become one. */
    method Link(child: int, top: int)
      requires Valid() && child in parent && top in parent
      requires root[child] == child && root[top] == top && child != top
      modifies this
      ensures Valid() && parent.Keys == old(parent.Keys)
      ensures root == Merged(old(root), child, top)
      ensures old(Descending()) && top < child ==> Descending()
    {
      Hang(parent, root, rank, child, top);
      parent := parent[child := top];
      rank := Deepened(root, rank, child, top);
      root := Merged(root, child, top);
    }

    /** In a descending forest the root is the least element of its class. */
    lemma {:induction false} RootIsLeast(x: int)
      requires Valid() && Descending() && x in parent
      ensures root[x] <= x
      decreases rank[x]
    {
      assert GoodNode(parent, root, rank, x);
      if parent[x] != x {
        RootIsLeast(parent[x]);
      }
    }
  }

  // --------------------------------------------------- classes and components

  /** The undirected graph of a list of pairs. */
  ghost function Graph(pairs: seq<(int, int)>): (int, int) -> bool {
    (a, b) => (a, b) in pairs || (b, a) in pairs
  }

  ghost predicate Joined(pairs: seq<(int, int)>, a: int, b: int) {
    Linked(Graph(pairs), a, b)
  }

  /** The classes of root are exactly the connected components of the pairs. */
  ghost predicate ClassesAre(root: map<int, int>, pairs: seq<(int, int)>) {
    forall a, b :: a in root && b in root ==> (root[a] == root[b] <==> Joined(pairs, a, b))
  }

  lemma JoinedSelf(pairs: seq<(int, int)>, a: int)
    ensures Joined(pairs, a, a)
  {
    ReachesSelf(Graph(pairs), a);
  }

  lemma JoinedSym(pairs: seq<(int, int)>, a: int, b: int)
    requires Joined(pairs, a, b)
    ensures Joined(pairs, b, a)
  {
    LinkedSym(Graph(pairs), a, b);
  }

  lemma JoinedEdge(pairs: seq<(int, int)>, a: int, b: int)
    requires (a, b) in pairs
    ensures Joined(pairs, a, b)
  {
    assert Joins(Graph(pairs), [a, b], a, b);
    assert Reaches(Graph(pairs), a, b, 1);
  }

  lemma JoinedMore(pairs: seq<(int, int)>, more: seq<(int, int)>, a: int, b: int)
    requires Joined(pairs, a, b) && forall e :: e in pairs ==> e in more
    ensures Joined(more, a, b)
  {
    var n: nat :| Reaches(Graph(pairs), a, b, n);
    var p :| Joins(Graph(pairs), p, a, b) && |p| == n + 1;
    assert Joins(Graph(more), p, a, b);
    assert Reaches(Graph(more), a, b, n);
  }

  /** A labelling constant along every edge is constant along every walk. */
  lemma {:induction false} ConstantAlong(pairs: seq<(int, int)>, root: map<int, int>, p: seq<int>, a: int, b: int)
    requires forall e :: e in pairs ==> e.0 in root && e.1 in root && root[e.0] == root[e.1]
    requires Joins(Graph(pairs), p, a, b) && a in root
    ensures b in root && root[a] == root[b]
    decreases |p|
  {
    if |p| > 1 {
      var c := p[|p| - 2];
      assert Joins(Graph(pairs), p[..|p| - 1], a, c);
      ConstantAlong(pairs, root, p[..|p| - 1], a, c);
      assert Graph(pairs)(p[|p| - 1 - 1], p[|p| - 1]);
    }
  }

  lemma NoPairsClasses(root: map<int, int>)
    requires forall x :: x in root ==> root[x] == x
    ensures ClassesAre(root, [])
  {
    forall a, b | a in root && b in root
      ensures root[a] == root[b] <==> Joined([], a, b)
    {
      JoinedSelf([], a);
      if n: nat :| Reaches(Graph([]), a, b, n) {
        var p :| Joins(Graph([]), p, a, b) && |p| == n + 1;
        ConstantAlong([], root, p, a, b);
      }
    }
  }

  lemma EdgesConstant(root: map<int, int>, pairs: seq<(int, int)>)
    requires ClassesAre(root, pairs) && forall e :: e in pairs ==> e.0 in root && e.1 in root
    ensures forall e :: e in pairs ==> root[e.0] == root[e.1]
  {
    forall e | e in pairs
      ensures root[e.0] == root[e.1]
    {
      JoinedEdge(pairs, e.0, e.1);
    }
  }

  /** Merging the two classes of one more pair gives the components with that pair. */
  lemma MergeClasses(root: map<int, int>, pairs: seq<(int, int)>, u: int, v: int, child: int, top: int,
                     merged: map<int, int>)
    requires ClassesAre(root, pairs) && (forall e :: e in pairs ==> e.0 in root && e.1 in root)
    requires u in root && v in root
    requires (root[u] == child && root[v] == top) || (root[u] == top && root[v] == child)
    requires merged == Merged(root, child, top)
    ensures ClassesAre(merged, pairs + [(u, v)])
  {
    var more := pairs + [(u, v)];
    EdgesConstant(root, pairs);
    forall a, b | a in merged && b in merged
      ensures merged[a] == merged[b] <==> Joined(more, a, b)
    {
      if merged[a] == merged[b] {
        MergedAreJoined(root, pairs, u, v, a, b);
      }
      if n: nat :| Reaches(Graph(more), a, b, n) {
        var p :| Joins(Graph(more), p, a, b) && |p| == n + 1;
        ConstantAlong(more, merged, p, a, b);
      }
    }
  }

  lemma MergedAreJoined(root: map<int, int>, pairs: seq<(int, int)>, u: int, v: int, a: int, b: int)
    requires ClassesAre(root, pairs) && u in root && v in root && a in root && b in root
    requires root[a] == root[b] || (root[a] == root[u] && root[b] == root[v]) || (root[a] == root[v] &&
               root[b] == root[u])
    ensures Joined(pairs + [(u, v)], a, b)
  {
    var more := pairs + [(u, v)];
    JoinedEdge(more, u, v);
    JoinedSym(more, u, v);
    if root[a] == root[b] {
      JoinedMore(pairs, more, a, b);
    } else {
      var x, y := if root[a] == root[u] then u else v, if root[a] == root[u] then v else u;
      JoinedMore(pairs, more, a, x);
      JoinedMore(pairs, more, y, b);
      LinkedConcat(Graph(more), a, x, y);
      LinkedConcat(Graph(more), a, y, b);
    }
  }
}
