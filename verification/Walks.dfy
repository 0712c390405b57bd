/** Walks in an arbitrary graph, and the theory of first-in first-out breadth-first search shared by the
    sea labelling (tools/map_pipeline/seas.py) and the stroke tracing (tools/map_pipeline/read_split_line.py).

    Several numbered seeds may be searched from at once. A vertex is ranked by how far it lies from a seed and,
    among equally near seeds, by the number of the earliest one. */
module Walks {

  ghost predicate IsWalk<T(!new)>(adj: (T, T) -> bool, p: seq<T>) {
    |p| > 0 && forall i :: 0 < i < |p| ==> adj(p[i - 1], p[i])
  }

  ghost predicate Joins<T(!new)>(adj: (T, T) -> bool, p: seq<T>, a: T, b: T) {
    IsWalk(adj, p) && p[0] == a && p[|p| - 1] == b
  }

  /** Some walk of exactly n steps leads from a to b. */
  ghost predicate Reaches<T(!new)>(adj: (T, T) -> bool, a: T, b: T, n: nat) {
    exists p: seq<T> :: Joins(adj, p, a, b) && |p| == n + 1
  }

  ghost predicate Linked<T(!new)>(adj: (T, T) -> bool, a: T, b: T) {
    exists n: nat :: Reaches(adj, a, b, n)
  }

  lemma ReachesSelf<T(!new)>(adj: (T, T) -> bool, a: T)
    ensures Reaches(adj, a, a, 0)
  {
    assert Joins(adj, [a], a, a);
  }

  lemma ReachesStep<T(!new)>(adj: (T, T) -> bool, a: T, b: T, c: T, n: nat)
    requires Reaches(adj, a, b, n) && adj(b, c)
    ensures Reaches(adj, a, c, n + 1)
  {
    var p :| Joins(adj, p, a, b) && |p| == n + 1;
    assert Joins(adj, p + [c], a, c);
  }

  lemma ReachesConcat<T(!new)>(adj: (T, T) -> bool, a: T, b: T, c: T, n: nat, m: nat)
    requires Reaches(adj, a, b, n) && Reaches(adj, b, c, m)
    ensures Reaches(adj, a, c, n + m)
  {
    var p :| Joins(adj, p, a, b) && |p| == n + 1;
    var q :| Joins(adj, q, b, c) && |q| == m + 1;
    assert Joins(adj, p + q[1..], a, c);
  }

  /** More steps keep what is linked. */
  lemma LinkedMono<T(!new)>(adj: (T, T) -> bool, more: (T, T) -> bool, a: T, b: T)
    requires Linked(adj, a, b) && forall x, y :: adj(x, y) ==> more(x, y)
    ensures Linked(more, a, b)
  {
    var n: nat :| Reaches(adj, a, b, n);
    var p :| Joins(adj, p, a, b) && |p| == n + 1;
    assert Joins(more, p, a, b);
    assert Reaches(more, a, b, n);
  }

  lemma LinkedConcat<T(!new)>(adj: (T, T) -> bool, a: T, b: T, c: T)
    requires Linked(adj, a, b) && Linked(adj, b, c)
    ensures Linked(adj, a, c)
  {
    var n: nat :| Reaches(adj, a, b, n);
    var m: nat :| Reaches(adj, b, c, m);
    ReachesConcat(adj, a, b, c, n, m);
  }

  lemma {:induction false} ReachesReverse<T(!new)>(adj: (T, T) -> bool, p: seq<T>, a: T, b: T)
    requires forall x, y :: adj(x, y) ==> adj(y, x)
    requires Joins(adj, p, a, b)
    ensures Reaches(adj, b, a, |p| - 1)
    decreases |p|
  {
    if |p| == 1 {
      ReachesSelf(adj, a);
    } else {
      var c := p[|p| - 2];
      assert Joins(adj, p[..|p| - 1], a, c);
      ReachesReverse(adj, p[..|p| - 1], a, c);
      assert Joins(adj, [b, c], b, c);
      ReachesConcat(adj, b, c, a, 1, |p| - 2);
    }
  }

  lemma LinkedSym<T(!new)>(adj: (T, T) -> bool, a: T, b: T)
    requires forall x, y :: adj(x, y) ==> adj(y, x)
    requires Linked(adj, a, b)
    ensures Linked(adj, b, a)
  {
    var n: nat :| Reaches(adj, a, b, n);
    var p :| Joins(adj, p, a, b) && |p| == n + 1;
    ReachesReverse(adj, p, a, b);
  }

  // ------------------------------------------------------------ nearest seed

  /** Seed number i reaches v in n steps, and no seed does better: every other arrival is later, or equally late
      from a seed that is not numbered lower. */
  ghost predicate Claims<T(!new)>(adj: (T, T) -> bool, seeds: seq<T>, v: T, i: nat, n: nat) {
    i < |seeds| && Reaches(adj, seeds[i], v, n) &&
    forall j: nat, m: nat :: j < |seeds| && Reaches(adj, seeds[j], v, m) ==> n < m || (n == m && i <= j)
  }

  ghost predicate Reached<T(!new)>(adj: (T, T) -> bool, seeds: seq<T>, v: T) {
    exists j: nat, m: nat :: j < |seeds| && Reaches(adj, seeds[j], v, m)
  }

  lemma ClaimsUnique<T(!new)>(adj: (T, T) -> bool, seeds: seq<T>, v: T, i: nat, n: nat, i': nat, n': nat)
    requires Claims(adj, seeds, v, i, n) && Claims(adj, seeds, v, i', n')
    ensures i == i' && n == n'
  {
  }

  // ------------------------------------------------------------ the search

  /** What a search knows: the vertices in the order they entered the queue, and for each its distance and the
      number of the seed it was grown from. */
  datatype Search<T> = Search(order: seq<T>, dist: map<T, nat>, owner: map<T, nat>)

  ghost predicate NotAfter(d: nat, i: nat, d': nat, i': nat) {
    d < d' || (d == d' && i <= i')
  }

  ghost predicate Domain<T(!new)>(s: Search<T>) {
    (forall i, j :: 0 <= i < j < |s.order| ==> s.order[i] != s.order[j]) &&
    (forall v :: v in s.order <==> v in s.dist) &&
    (forall v :: v in s.order <==> v in s.owner)
  }

  /** Every recorded vertex really is that far from its seed. */
  ghost predicate Witnessed<T(!new)>(adj: (T, T) -> bool, seeds: seq<T>, s: Search<T>)
    requires Domain(s)
  {
    forall v :: v in s.dist ==> s.owner[v] < |seeds| && Reaches(adj, seeds[s.owner[v]], v, s.dist[v])
  }

  /** The queue is ordered by distance, then by seed number. */
  ghost predicate Sorted<T(!new)>(s: Search<T>)
    requires Domain(s)
  {
    forall i, j :: 0 <= i < j < |s.order| ==>
      NotAfter(s.dist[s.order[i]], s.owner[s.order[i]], s.dist[s.order[j]], s.owner[s.order[j]])
  }

  ghost predicate Seeded<T(!new)>(seeds: seq<T>, s: Search<T>)
    requires Domain(s)
  {
    seeds <= s.order && forall i :: 0 <= i < |seeds| ==> s.dist[seeds[i]] == 0 && s.owner[seeds[i]] == i
  }

  /** Nothing in the queue lies more than one step behind the vertex at its head. */
  ghost predicate Shallow<T(!new)>(s: Search<T>, head: nat)
    requires Domain(s)
  {
    head < |s.order| ==> forall k :: 0 <= k < |s.order| ==>
      NotAfter(s.dist[s.order[k]], s.owner[s.order[k]], s.dist[s.order[head]] + 1, s.owner[s.order[head]])
  }

  ghost predicate Covered<T(!new)>(s: Search<T>, u: T, v: T)
    requires Domain(s) && u in s.dist
  {
    v in s.dist && NotAfter(s.dist[v], s.owner[v], s.dist[u] + 1, s.owner[u])
  }

  /** Vertices taken from the queue have all their neighbours recorded, none later than one step on. */
  ghost predicate Closed<T(!new)>(adj: (T, T) -> bool, s: Search<T>, head: nat)
    requires Domain(s) && head <= |s.order|
  {
    forall i, v :: 0 <= i < head && adj(s.order[i], v) ==> Covered(s, s.order[i], v)
  }

  ghost predicate Frontier<T(!new)>(adj: (T, T) -> bool, seeds: seq<T>, s: Search<T>, head: nat) {
    head <= |s.order| && Domain(s) && Witnessed(adj, seeds, s) && Sorted(s) && Seeded(seeds, s) &&
    Shallow(s, head) && Closed(adj, s, head)
  }

  ghost function Start<T(!new)>(seeds: seq<T>): Search<T>
    requires forall i, j :: 0 <= i < j < |seeds| ==> seeds[i] != seeds[j]
  {
    Search(seeds, map v | v in seeds :: 0, map v | v in seeds :: Index(seeds, v))
  }

  ghost function Index<T(!new)>(s: seq<T>, v: T): (i: nat)
    requires v in s
    ensures i < |s| && s[i] == v
  {
    if s[0] == v then 0 else 1 + Index(s[1..], v)
  }

  ghost function Discover<T(!new)>(s: Search<T>, u: T, v: T): Search<T>
    requires u in s.dist && u in s.owner
  {
    Search(s.order + [v], s.dist[v := s.dist[u] + 1], s.owner[v := s.owner[u]])
  }

  lemma StartFrontier<T(!new)>(adj: (T, T) -> bool, seeds: seq<T>)
    requires forall i, j :: 0 <= i < j < |seeds| ==> seeds[i] != seeds[j]
    ensures Frontier(adj, seeds, Start(seeds), 0)
  {
    forall v | v in seeds
      ensures Reaches(adj, seeds[Index(seeds, v)], v, 0)
    {
      ReachesSelf(adj, v);
    }
  }

  lemma DiscoverDomain<T(!new)>(s: Search<T>, u: T, v: T)
    requires Domain(s) && u in s.order && v !in s.order
    ensures Domain(Discover(s, u, v))
  {
    assert forall x :: x in s.order + [v] <==> x in s.order || x == v;
  }

  lemma DiscoverSorted<T(!new)>(s: Search<T>, head: nat, v: T)
    requires Domain(s) && Sorted(s) && head < |s.order| && Shallow(s, head) && v !in s.order
    requires Domain(Discover(s, s.order[head], v))
    ensures Sorted(Discover(s, s.order[head], v))
  {
    hide Discover, NotAfter;
    DiscoverKeeps(s, head, v);
  }

  lemma DiscoverShallow<T(!new)>(s: Search<T>, head: nat, v: T)
    requires Domain(s) && head < |s.order| && Shallow(s, head) && v !in s.order
    requires Domain(Discover(s, s.order[head], v))
    ensures Shallow(Discover(s, s.order[head], v), head)
  {
    hide Discover, NotAfter;
    DiscoverKeeps(s, head, v);
    NotAfterSelf(s.dist[s.order[head]] + 1, s.owner[s.order[head]]);
  }

  /** Recording a vertex leaves the others as they are and puts the new one behind the head. */
  lemma DiscoverKeeps<T(!new)>(s: Search<T>, head: nat, v: T)
    requires Domain(s) && head < |s.order| && v !in s.order && Domain(Discover(s, s.order[head], v))
    ensures var t := Discover(s, s.order[head], v);
            |t.order| == |s.order| + 1 && t.order[|s.order|] == v &&
            t.dist[v] == s.dist[s.order[head]] + 1 && t.owner[v] == s.owner[s.order[head]] &&
            forall k :: 0 <= k < |s.order| ==>
              t.order[k] == s.order[k] && t.dist[t.order[k]] == s.dist[s.order[k]] &&
              t.owner[t.order[k]] == s.owner[s.order[k]]
  {
    forall k | 0 <= k < |s.order|
      ensures s.order[k] != v
    {
      assert s.order[k] in s.order;
    }
  }

  lemma NotAfterSelf(d: nat, o: nat)
    ensures NotAfter(d, o, d, o)
  {
  }

  lemma DiscoverWitnessed<T(!new)>(adj: (T, T) -> bool, seeds: seq<T>, s: Search<T>, u: T, v: T)
    requires Domain(s) && Witnessed(adj, seeds, s) && u in s.order && v !in s.order && adj(u, v)
    requires Domain(Discover(s, u, v))
    ensures Witnessed(adj, seeds, Discover(s, u, v))
  {
    ReachesStep(adj, seeds[s.owner[u]], u, v, s.dist[u]);
  }

  lemma DiscoverClosed<T(!new)>(adj: (T, T) -> bool, s: Search<T>, head: nat, u: T, v: T)
    requires Domain(s) && head <= |s.order| && Closed(adj, s, head) && u in s.order && v !in s.order
    requires Domain(Discover(s, u, v))
    ensures Closed(adj, Discover(s, u, v), head)
  {
    var t := Discover(s, u, v);
    forall i, x | 0 <= i < head && adj(t.order[i], x)
      ensures Covered(t, t.order[i], x)
    {
      assert t.order[i] == s.order[i];
      assert Covered(s, s.order[i], x);
    }
  }

  /** Recording an unseen neighbour of the head keeps the frontier. */
  lemma DiscoverFrontier<T(!new)>(adj: (T, T) -> bool, seeds: seq<T>, s: Search<T>, head: nat, v: T)
    requires Frontier(adj, seeds, s, head) && head < |s.order|
    requires adj(s.order[head], v) && v !in s.dist
    ensures Frontier(adj, seeds, Discover(s, s.order[head], v), head)
  {
    var u := s.order[head];
    DiscoverDomain(s, u, v);
    DiscoverSorted(s, head, v);
    DiscoverShallow(s, head, v);
    DiscoverWitnessed(adj, seeds, s, u, v);
    DiscoverClosed(adj, s, head, u, v);
    assert Seeded(seeds, Discover(s, u, v)) by {
      assert forall i :: 0 <= i < |seeds| ==> seeds[i] == s.order[i] && seeds[i] != v;
    }
  }

  /** When every neighbour of the head is recorded, the head may advance. */
  lemma AdvanceFrontier<T(!new)>(adj: (T, T) -> bool, seeds: seq<T>, s: Search<T>, head: nat)
    requires Frontier(adj, seeds, s, head) && head < |s.order|
    requires forall v :: adj(s.order[head], v) ==> v in s.dist
    ensures Frontier(adj, seeds, s, head + 1)
  {
    hide Witnessed, Seeded, Covered;
    var u := s.order[head];
    forall i, v | 0 <= i < head + 1 && adj(s.order[i], v)
      ensures Covered(s, s.order[i], v)
    {
      if i == head {
        NoneBeyond(s, head, v);
      }
    }
  }

  lemma NoneBeyond<T(!new)>(s: Search<T>, head: nat, v: T)
    requires Domain(s) && head < |s.order| && Shallow(s, head) && v in s.dist
    ensures Covered(s, s.order[head], v)
  {
    assert v in s.order;
    var k :| 0 <= k < |s.order| && s.order[k] == v;
  }

  /** An exhausted search has recorded the end of every walk from a seed, and never ranks it later than that walk. */
  lemma {:induction false} WalkBound<T(!new)>(adj: (T, T) -> bool, seeds: seq<T>, s: Search<T>, j: nat, p: seq<T>, v: T)
    requires Frontier(adj, seeds, s, |s.order|)
    requires j < |seeds| && Joins(adj, p, seeds[j], v)
    ensures v in s.dist && NotAfter(s.dist[v], s.owner[v], |p| - 1, j)
    decreases |p|
  {
    if |p| == 1 {
      assert s.order[j] == v;
    } else {
      var u := p[|p| - 2];
      assert Joins(adj, p[..|p| - 1], seeds[j], u);
      WalkBound(adj, seeds, s, j, p[..|p| - 1], u);
      var i :| 0 <= i < |s.order| && s.order[i] == u;
      assert adj(p[|p| - 1 - 1], p[|p| - 1]);
      assert Covered(s, s.order[i], v);
    }
  }

  /** Correctness of the exhausted search: exactly the reachable vertices are recorded, each with the distance of
      its nearest seed and the number of the earliest such seed. */
  lemma SearchComplete<T(!new)>(adj: (T, T) -> bool, seeds: seq<T>, s: Search<T>)
    requires Frontier(adj, seeds, s, |s.order|)
    ensures forall v :: v in s.order <==> Reached(adj, seeds, v)
    ensures forall v :: v in s.order ==> Claims(adj, seeds, v, s.owner[v], s.dist[v])
  {
    forall v, j: nat, m: nat | j < |seeds| && Reaches(adj, seeds[j], v, m)
      ensures v in s.dist && NotAfter(s.dist[v], s.owner[v], m, j)
    {
      var p :| Joins(adj, p, seeds[j], v) && |p| == m + 1;
      WalkBound(adj, seeds, s, j, p, v);
    }
    forall v | v in s.order
      ensures Reached(adj, seeds, v)
    {
      assert Reaches(adj, seeds[s.owner[v]], v, s.dist[v]);
    }
  }
}
