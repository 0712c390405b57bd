/** Tracing a drawn stroke: breadth-first search over a set of pixels and the path it yields
    (tools/map_pipeline/read_split_line.py). */
module Stroke {
  import opened Optional
  import opened Walks
  import opened Seas

  /** One step between two of the pixels, diagonals included. */
  ghost function Ink(pixels: set<Pixel>): (Pixel, Pixel) -> bool {
    (a, b) => a in pixels && b in pixels && a != b && -1 <= a.row - b.row <= 1 && -1 <= a.col - b.col <= 1
  }

  /** b lies n steps from a, and no fewer. */
  ghost predicate Apart(pixels: set<Pixel>, a: Pixel, b: Pixel, n: nat) {
    Reaches(Ink(pixels), a, b, n) && forall m: nat :: Reaches(Ink(pixels), a, b, m) ==> n <= m
  }

  /** prev is a tree of shortest ways back to start over all the pixels that can be reached; far holds the true
      distances. */
  ghost predicate ShortestTree(pixels: set<Pixel>, start: Pixel, prev: map<Pixel, Option<Pixel>>, far: map<Pixel,
                               nat>) {
    far.Keys == prev.Keys &&
    (forall v :: v in far <==> Linked(Ink(pixels), start, v)) &&
    (forall v :: v in far ==> Apart(pixels, start, v, far[v])) &&
    Backward(pixels, start, prev, far)
  }

  ghost predicate Backward(pixels: set<Pixel>, start: Pixel, prev: map<Pixel, Option<Pixel>>, far: map<Pixel, nat>) {
    far.Keys == prev.Keys && start in prev && far[start] == 0 && prev[start].None? &&
    forall v :: v in prev && v != start ==>
      prev[v].Some? && prev[v].value in far && Ink(pixels)(prev[v].value, v) && far[v] == far[prev[v].value] + 1
  }

  lemma BackwardDiscover(pixels: set<Pixel>, start: Pixel, prev: map<Pixel, Option<Pixel>>, s: Search<Pixel>,
                         u: Pixel, v: Pixel)
    requires Backward(pixels, start, prev, s.dist) && u in s.dist && u in s.owner && v !in s.dist && Ink(pixels)(u, v)
    ensures Backward(pixels, start, prev[v := Some(u)], Discover(s, u, v).dist)
  {
  }

  lemma Exhausted(pixels: set<Pixel>, start: Pixel, s: Search<Pixel>)
    requires Frontier(Ink(pixels), [start], s, |s.order|)
    ensures forall v :: v in s.dist <==> Linked(Ink(pixels), start, v)
    ensures forall v :: v in s.dist ==> Apart(pixels, start, v, s.dist[v])
    ensures |s.order| > 0 && s.order[|s.order| - 1] in s.dist
    ensures forall v :: v in s.dist ==> s.dist[v] <= s.dist[s.order[|s.order| - 1]]
  {
    SearchComplete(Ink(pixels), [start], s);
    assert [start][0] == start;
    forall v | v in s.dist
      ensures Apart(pixels, start, v, s.dist[v]) && s.dist[v] <= s.dist[s.order[|s.order| - 1]]
    {
      assert v in s.order && Claims(Ink(pixels), [start], v, s.owner[v], s.dist[v]);
      var k :| 0 <= k < |s.order| && s.order[k] == v;
    }
    forall v
      ensures v in s.dist <==> Linked(Ink(pixels), start, v)
    {
      assert v in s.dist <==> Reached(Ink(pixels), [start], v);
      if n: nat :| Reaches(Ink(pixels), start, v, n) {
        assert Reaches(Ink(pixels), [start][0], v, n);
      }
    }
  }

  lemma Opening(pixels: set<Pixel>, start: Pixel)
    ensures Frontier(Ink(pixels), [start], Start([start]), 0)
    ensures Start([start]).order == [start] && Start([start]).dist == map[start := 0]
    ensures Backward(pixels, start, map[start := None], Start([start]).dist)
  {
    StartFrontier(Ink(pixels), [start]);
  }

  lemma HeadIn(adj: (Pixel, Pixel) -> bool, seeds: seq<Pixel>, s: Search<Pixel>, head: nat)
    requires Frontier(adj, seeds, s, head) && head < |s.order|
    ensures s.order[head] in s.dist && s.order[head] in s.owner && head <= |s.order|
  {
    assert s.order[head] in s.order;
  }

  lemma Discovered(adj: (Pixel, Pixel) -> bool, seeds: seq<Pixel>, s: Search<Pixel>, head: nat, v: Pixel)
    requires Frontier(adj, seeds, s, head) && head < |s.order| && adj(s.order[head], v) && v !in s.dist
    ensures s.order[head] in s.dist && s.order[head] in s.owner
    ensures Frontier(adj, seeds, Discover(s, s.order[head], v), head)
    ensures Discover(s, s.order[head], v).order == s.order + [v]
    ensures Discover(s, s.order[head], v).dist.Keys == s.dist.Keys + {v}
  {
    HeadIn(adj, seeds, s, head);
    DiscoverFrontier(adj, seeds, s, head, v);
  }

  /** Queues one pixel next to cur unless it has been seen. */
  method TryNext(pixels: set<Pixel>, cur: Pixel, next: Pixel, waiting: seq<Pixel>, prev0: map<Pixel, Option<Pixel>>,
                 ghost start: Pixel, ghost s0: Search<Pixel>, ghost head: nat)
    returns (q: seq<Pixel>, prev: map<Pixel, Option<Pixel>>, ghost s: Search<Pixel>)
    requires Frontier(Ink(pixels), [start], s0, head) && head < |s0.order| && s0.order[head] == cur && cur in pixels
    requires waiting == s0.order[head + 1..] && Backward(pixels, start, prev0, s0.dist) && s0.dist.Keys <= pixels
    requires next in pixels && next != cur ==> Ink(pixels)(cur, next)
    ensures Frontier(Ink(pixels), [start], s, head) && head < |s.order| && s.order[head] == cur && s0.order <= s.order
    ensures q == s.order[head + 1..] && Backward(pixels, start, prev, s.dist)
    ensures s0.dist.Keys <= s.dist.Keys <= pixels && (s.dist.Keys == s0.dist.Keys ==> q == waiting)
    ensures next in pixels ==> next in s.dist
  {
    hide Frontier, Backward, Discover, Ink;
    q, prev, s := waiting, prev0, s0;
    HeadIn(Ink(pixels), [start], s, head);
    BackwardDomain(pixels, start, prev, s.dist);
    if next in pixels && next !in prev {
      Discovered(Ink(pixels), [start], s, head, next);
      BackwardDiscover(pixels, start, prev, s, cur, next);
      prev := prev[next := Some(cur)];
      s := Discover(s, cur, next);
      q := q + [next];
    }
  }

  /** Queues the unseen pixels around cur, row offset first. */
  method Around(pixels: set<Pixel>, cur: Pixel, waiting: seq<Pixel>, prev0: map<Pixel, Option<Pixel>>,
                ghost start: Pixel, ghost s0: Search<Pixel>, ghost head: nat)
    returns (q: seq<Pixel>, prev: map<Pixel, Option<Pixel>>, ghost s: Search<Pixel>)
    requires Frontier(Ink(pixels), [start], s0, head) && head < |s0.order| && s0.order[head] == cur && cur in pixels
    requires waiting == s0.order[head + 1..] && Backward(pixels, start, prev0, s0.dist) && s0.dist.Keys <= pixels
    ensures Frontier(Ink(pixels), [start], s, head + 1) && q == s.order[head + 1..] && s0.order <= s.order
    ensures Backward(pixels, start, prev, s.dist) && s0.dist.Keys <= s.dist.Keys <= pixels
    ensures s.dist.Keys == s0.dist.Keys ==> q == waiting
  {
    hide Frontier, Backward;
    q, prev, s := waiting, prev0, s0;
    HeadIn(Ink(pixels), [start], s, head);
    for dr := -1 to 2
      invariant Frontier(Ink(pixels), [start], s, head) && head < |s.order| && s.order[head] == cur &&
                  s0.order <= s.order
      invariant q == s.order[head + 1..] && Backward(pixels, start, prev, s.dist)
      invariant s0.dist.Keys <= s.dist.Keys <= pixels && (s.dist.Keys == s0.dist.Keys ==> q == waiting)
      invariant cur in s.dist
      invariant forall v :: Ink(pixels)(cur, v) && v.row - cur.row < dr ==> v in s.dist
    {
      for dc := -1 to 2
        invariant Frontier(Ink(pixels), [start], s, head) && head < |s.order| && s.order[head] == cur &&
                    s0.order <= s.order
        invariant q == s.order[head + 1..] && Backward(pixels, start, prev, s.dist)
        invariant s0.dist.Keys <= s.dist.Keys <= pixels && (s.dist.Keys == s0.dist.Keys ==> q == waiting)
        invariant cur in s.dist
        invariant forall v ::
                    Ink(pixels)(cur, v) &&
                    (v.row - cur.row < dr || (v.row - cur.row == dr && v.col - cur.col < dc)) ==>
                    v in s.dist
      {
        q, prev, s := TryNext(pixels, cur, Pixel(cur.row + dr, cur.col + dc), q, prev, start, s, head);
      }
    }
    AdvanceFrontier(Ink(pixels), [start], s, head);
  }

  lemma BackwardDomain(pixels: set<Pixel>, start: Pixel, prev: map<Pixel, Option<Pixel>>, far: map<Pixel, nat>)
    requires Backward(pixels, start, prev, far)
    ensures prev.Keys == far.Keys && start in prev
  {
  }

  lemma FrontierBounds(adj: (Pixel, Pixel) -> bool, seeds: seq<Pixel>, s: Search<Pixel>, head: nat)
    requires Frontier(adj, seeds, s, head)
    ensures head <= |s.order|
  {
  }

  /** The pixel farthest from start, with the tree of shortest ways back. */
  method BfsFarthest(start: Pixel, pixels: set<Pixel>)
    returns (last: Pixel, prev: map<Pixel, Option<Pixel>>, ghost far: map<Pixel, nat>)
    requires start in pixels
    ensures ShortestTree(pixels, start, prev, far)
    ensures last in far && forall v :: v in far ==> far[v] <= far[last]
    ensures far.Keys <= pixels
    ensures Farthest(pixels, start, last)
    ensures forall v :: v in prev <==> Linked(Ink(pixels), start, v)
  {
    hide Frontier, Backward;
    prev := map[start := None];
    var q := [start];
    last := start;
    Opening(pixels, start);
    ghost var s, head := Start([start]), 0;
    while q != []
      invariant Frontier(Ink(pixels), [start], s, head) && head <= |s.order| && q == s.order[head..]
      invariant Backward(pixels, start, prev, s.dist) && s.dist.Keys <= pixels && prev.Keys == s.dist.Keys
      invariant head > 0 ==> last == s.order[head - 1]
      decreases pixels - s.dist.Keys, |q|
    {
      var cur := q[0];
      last := cur;
      HeadIn(Ink(pixels), [start], s, head);
      q, prev, s := Around(pixels, cur, q[1..], prev, start, s, head);
      head := head + 1;
      FrontierBounds(Ink(pixels), [start], s, head);
      BackwardDomain(pixels, start, prev, s.dist);
    }
    Exhausted(pixels, start, s);
    far := s.dist;
    TreeFarthest(pixels, start, last, prev, far);
  }

  function Reversed(p: seq<Pixel>): (r: seq<Pixel>)
    ensures |r| == |p| && forall i :: 0 <= i < |p| ==> r[i] == p[|p| - 1 - i]
  {
    seq(|p|, i requires 0 <= i < |p| => p[|p| - 1 - i])
  }

  /** A simple path of adjacent ink pixels from a to b, as short as any. */
  ghost predicate ShortestPath(pixels: set<Pixel>, path: seq<Pixel>, a: Pixel, b: Pixel) {
    Joins(Ink(pixels), path, a, b) && Distinct(path) && (forall i :: 0 <= i < |path| ==> path[i] in pixels) &&
    Apart(pixels, a, b, |path| - 1)
  }

  /** b is among the pixels farthest from a, of those a can reach. */
  ghost predicate Farthest(pixels: set<Pixel>, a: Pixel, b: Pixel) {
    exists n: nat :: Apart(pixels, a, b, n) && forall v, m: nat :: Apart(pixels, a, v, m) ==> m <= n
  }

  lemma TreeFarthest(pixels: set<Pixel>, a: Pixel, b: Pixel, prev: map<Pixel, Option<Pixel>>, far: map<Pixel, nat>)
    requires ShortestTree(pixels, a, prev, far) && b in far && forall v :: v in far ==> far[v] <= far[b]
    ensures Farthest(pixels, a, b)
  {
    forall v, m: nat | Apart(pixels, a, v, m)
      ensures m <= far[b]
    {
      assert Linked(Ink(pixels), a, v);
      assert Apart(pixels, a, v, far[v]);
    }
  }

  /** The chain from b back to the root of the tree, b first. */
  ghost predicate Chain(pixels: set<Pixel>, a: Pixel, b: Pixel, prev: map<Pixel, Option<Pixel>>, far: map<Pixel, nat>,
                        back: seq<Pixel>)
  {
    |back| > 0 && back[0] == b && b in far &&
    (forall i :: 0 <= i < |back| ==> back[i] in far && far[back[i]] == far[b] - i) &&
    (forall i :: 0 < i < |back| ==> Ink(pixels)(back[i], back[i - 1]))
  }

  lemma ChainStep(pixels: set<Pixel>, a: Pixel, b: Pixel, prev: map<Pixel, Option<Pixel>>, far: map<Pixel, nat>,
                  back: seq<Pixel>)
    requires Backward(pixels, a, prev, far) && Chain(pixels, a, b, prev, far, back)
    ensures back[|back| - 1] in prev && (prev[back[|back| - 1]] == None <==> back[|back| - 1] == a)
    ensures prev[back[|back| - 1]] != None ==> Chain(pixels, a, b, prev, far, back + [prev[back[|back| - 1]].value])
    ensures far[back[|back| - 1]] == far[b] + 1 - |back|
  {
    hide Ink;
    var last := back[|back| - 1];
    assert last in far && last in prev;
    if prev[last] != None {
      var more := back + [prev[last].value];
      assert forall i :: 0 <= i < |back| ==> more[i] == back[i];
      assert more[|back|] in far && far[more[|back|]] == far[last] - 1;
    }
  }

  lemma ChainPath(pixels: set<Pixel>, a: Pixel, b: Pixel, prev: map<Pixel, Option<Pixel>>, far: map<Pixel, nat>,
                  back: seq<Pixel>)
    requires ShortestTree(pixels, a, prev, far) && Chain(pixels, a, b, prev, far, back) && back[|back| - 1] == a
    requires a in pixels
    ensures ShortestPath(pixels, Reversed(back), a, b)
  {
    var path := Reversed(back);
    forall i | 0 < i < |path|
      ensures Ink(pixels)(path[i - 1], path[i])
    {
      assert Ink(pixels)(back[|path| - i], back[|path| - i - 1]);
    }
    forall i | 0 <= i < |path|
      ensures path[i] in pixels
    {
      if i > 0 {
        assert Ink(pixels)(path[i - 1], path[i]);
      }
    }
    assert far[b] == |path| - 1;
  }

  /** The stroke as a path: from a pixel farthest from somewhere to a pixel farthest from it, simple and shortest
      between its two ends. */
  method StrokePath(mask: set<Pixel>) returns (path: seq<Pixel>)
    requires mask != {}
    ensures |path| > 0 && ShortestPath(mask, path, path[0], path[|path| - 1])
    ensures Farthest(mask, path[0], path[|path| - 1])
    ensures exists s :: s in mask && Farthest(mask, s, path[0])
  {
    hide Ink, Backward, Apart, Chain;
    var some :| some in mask;
    var endA, prev0, far0 := BfsFarthest(some, mask);
    TreeFarthest(mask, some, endA, prev0, far0);
    var endB, prev, far := BfsFarthest(endA, mask);
    TreeFarthest(mask, endA, endB, prev, far);
    var back := [endB];
    ChainStart(mask, endA, endB, prev, far);
    ChainStep(mask, endA, endB, prev, far, back);
    while prev[back[|back| - 1]] != None
      invariant |back| > 0 && back[|back| - 1] in prev && back[|back| - 1] in far &&
                  Chain(mask, endA, endB, prev, far, back)
      invariant prev[back[|back| - 1]] == None <==> back[|back| - 1] == endA
      invariant far[back[|back| - 1]] == far[endB] + 1 - |back|
      decreases far[back[|back| - 1]]
    {
      ChainStep(mask, endA, endB, prev, far, back);
      back := back + [prev[back[|back| - 1]].value];
      ChainStep(mask, endA, endB, prev, far, back);
    }
    ChainPath(mask, endA, endB, prev, far, back);
    path := Reversed(back);
    PathEnds(mask, path, endA, endB);
  }

  lemma ChainStart(pixels: set<Pixel>, a: Pixel, b: Pixel, prev: map<Pixel, Option<Pixel>>, far: map<Pixel, nat>)
    requires b in far
    ensures Chain(pixels, a, b, prev, far, [b])
  {
  }

  lemma PathEnds(pixels: set<Pixel>, path: seq<Pixel>, a: Pixel, b: Pixel)
    requires ShortestPath(pixels, path, a, b)
    ensures |path| > 0 && path[0] == a && path[|path| - 1] == b
  {
  }
}
