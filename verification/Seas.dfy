/** Sea labelling: seed snapping and placement, and the growth of zone labels through working water
    (tools/map_pipeline/seas.py). A boolean mask is the set of its true pixels; the label raster is an array
    written in place, 0 meaning unlabelled. */
module Seas {
  import opened Optional
  import opened Walks

  datatype Pixel = Pixel(row: int, col: int)

  predicate Inside(h: nat, w: nat, p: Pixel) {
    0 <= p.row < h && 0 <= p.col < w
  }

  ghost predicate Beside(a: Pixel, b: Pixel) {
    (a.row == b.row && (a.col - b.col == 1 || b.col - a.col == 1)) ||
    (a.col == b.col && (a.row - b.row == 1 || b.row - a.row == 1))
  }

  /** One step through working water. */
  ghost function Water(working: set<Pixel>): (Pixel, Pixel) -> bool {
    (a, b) => Beside(a, b) && a in working && b in working
  }

  ghost predicate Distinct<T(!new)>(s: seq<T>) {
    forall i, j :: 0 <= i < j < |s| ==> s[i] != s[j]
  }

  ghost predicate MaskFits(h: nat, w: nat, working: set<Pixel>) {
    forall p :: p in working ==> Inside(h, w, p)
  }

  /** The contract of the library's component labelling: a positive number per connected body of working water. */
  ghost predicate ComponentLabelling(working: set<Pixel>, comp: map<Pixel, nat>, count: nat) {
    comp.Keys == working &&
    (forall p :: p in working ==> 1 <= comp[p] <= count) &&
    forall p, q :: p in working && q in working ==> (comp[p] == comp[q] <==> Linked(Water(working), p, q))
  }

  // --------------------------------------------------------------- territory

  lemma ClaimExists(working: set<Pixel>, queue: seq<Pixel>, p: Pixel, j: nat, m: nat)
    requires j < |queue| && Reaches(Water(working), queue[j], p, m)
    ensures exists i: nat, n: nat :: Claims(Water(working), queue, p, i, n)
    decreases m, j
  {
    if !Claims(Water(working), queue, p, j, m) {
      var j': nat, m': nat :| j' < |queue| && Reaches(Water(working), queue[j'], p, m') &&
                              !(m < m' || (m == m' && j <= j'));
      ClaimExists(working, queue, p, j', m');
    }
  }

  /** The label every pixel ought to carry: the zone of the earliest-queued among its nearest seeds, where
      distance counts steps through working water; 0 when no seed reaches it. */
  ghost function Territory(working: set<Pixel>, queue: seq<Pixel>, zones: seq<int>, p: Pixel): int
    requires |zones| == |queue|
  {
    if Reached(Water(working), queue, p) then
      var j: nat, m: nat :| j < |queue| && Reaches(Water(working), queue[j], p, m);
      ClaimExists(working, queue, p, j, m);
      var i: nat, n: nat :| Claims(Water(working), queue, p, i, n);
      zones[i]
    else 0
  }

  lemma TerritoryIs(working: set<Pixel>, queue: seq<Pixel>, zones: seq<int>, p: Pixel, i: nat, n: nat)
    requires |zones| == |queue|
    requires Claims(Water(working), queue, p, i, n)
    ensures Territory(working, queue, zones, p) == zones[i]
  {
    forall i': nat, n': nat | Claims(Water(working), queue, p, i', n')
      ensures i' == i
    {
      ClaimsUnique(Water(working), queue, p, i, n, i', n');
    }
  }

  lemma ReachedInWater(working: set<Pixel>, a: Pixel, p: Pixel, n: nat)
    requires a in working && Reaches(Water(working), a, p, n)
    ensures p in working && Linked(Water(working), a, p)
  {
    var w :| Joins(Water(working), w, a, p) && |w| == n + 1;
    if n > 0 {
      assert Water(working)(w[n - 1], w[n]);
    }
  }

  /** Every labelled pixel is connected to a seed of its zone through pixels of that same zone: along a shortest
      walk from the claiming seed, nobody else claims anything. */
  lemma {:induction false} TerritoryConnected(working: set<Pixel>, queue: seq<Pixel>, zones: seq<int>, p: Pixel)
    requires |zones| == |queue|
    requires Reached(Water(working), queue, p)
    ensures exists i, walk :: 0 <= i < |queue| && Joins(Water(working), walk, queue[i], p) &&
              zones[i] == Territory(working, queue, zones, p) &&
              forall k :: 0 <= k < |walk| ==> Territory(working, queue, zones, walk[k]) == zones[i]
  {
    var adj := Water(working);
    var j: nat, m: nat :| j < |queue| && Reaches(adj, queue[j], p, m);
    ClaimExists(working, queue, p, j, m);
    var i: nat, n: nat :| Claims(adj, queue, p, i, n);
    TerritoryIs(working, queue, zones, p, i, n);
    var walk :| Joins(adj, walk, queue[i], p) && |walk| == n + 1;
    forall k | 0 <= k < |walk|
      ensures Territory(working, queue, zones, walk[k]) == zones[i]
    {
      assert Joins(adj, walk[..k + 1], queue[i], walk[k]);
      assert Joins(adj, walk[k..], walk[k], p);
      assert Reaches(adj, walk[k], p, n - k);
      forall j: nat, m: nat | j < |queue| && Reaches(adj, queue[j], walk[k], m)
        ensures k < m || (k == m && i <= j)
      {
        ReachesConcat(adj, queue[j], walk[k], p, m, n - k);
      }
      assert Claims(adj, queue, walk[k], i, k);
      TerritoryIs(working, queue, zones, walk[k], i, k);
    }
  }

  // ------------------------------------------------------------------ growth

  /** The neighbour offsets in the order the search tries them: right, left, down, up. */
  function Toward(k: nat, p: Pixel): Pixel
    requires k < 4
  {
    if k == 0 then Pixel(p.row, p.col + 1) else if k == 1 then Pixel(p.row, p.col - 1)
    else if k == 2 then Pixel(p.row + 1, p.col) else Pixel(p.row - 1, p.col)
  }

  ghost function Frame(h: nat, w: nat): set<Pixel> {
    set r, c | 0 <= r < h && 0 <= c < w :: Pixel(r, c)
  }

  /** The raster as a map. */
  ghost function View(labels: array2<int>): (m: map<Pixel, int>)
    reads labels
    ensures forall p :: p in m <==> Inside(labels.Length0, labels.Length1, p)
    ensures forall p :: Inside(labels.Length0, labels.Length1, p) ==> m[p] == labels[p.row, p.col]
  {
    map p | p in Frame(labels.Length0, labels.Length1) :: labels[p.row, p.col]
  }

  /** Pixels the search has found carry their seed's label, the rest what they had. */
  ghost predicate Grown(working: set<Pixel>, seeds: seq<Pixel>, s: Search<Pixel>, was: map<Pixel, int>,
                        now: map<Pixel, int>)
    requires Domain(s)
  {
    now.Keys == was.Keys &&
    (forall p :: p in s.dist ==> p in working && p in now && s.owner[p] < |seeds| && seeds[s.owner[p]] in was &&
                                  now[p] == was[seeds[s.owner[p]]] && now[p] != 0) &&
    (forall p :: p in now && p !in s.dist ==> now[p] == was[p])
  }

  ghost predicate Fresh(working: set<Pixel>, seeds: seq<Pixel>, was: map<Pixel, int>) {
    Distinct(seeds) && working <= was.Keys && (forall p :: p in seeds ==> p in working) &&
    forall p :: p in working && Reached(Water(working), seeds, p) ==> (was[p] != 0 <==> p in seeds)
  }

  lemma GrownStart(working: set<Pixel>, seeds: seq<Pixel>, was: map<Pixel, int>)
    requires Fresh(working, seeds, was)
    ensures Frontier(Water(working), seeds, Start(seeds), 0)
    ensures Domain(Start(seeds)) && Grown(working, seeds, Start(seeds), was, was) && Start(seeds).order == seeds
  {
    StartFrontier(Water(working), seeds);
    forall p | p in seeds
      ensures was[p] != 0
    {
      ReachesSelf(Water(working), p);
      assert Reached(Water(working), seeds, p) by {
        assert Reaches(Water(working), seeds[Index(seeds, p)], p, 0);
      }
    }
  }

  /** A working neighbour of the head is unlabelled exactly when the search has not seen it. */
  lemma UnlabelledIsUnseen(working: set<Pixel>, seeds: seq<Pixel>, s: Search<Pixel>, head: nat, was: map<Pixel, int>,
                           now: map<Pixel, int>, next: Pixel)
    requires Fresh(working, seeds, was)
    requires Frontier(Water(working), seeds, s, head) && head < |s.order| && Grown(working, seeds, s, was, now)
    requires Water(working)(s.order[head], next)
    ensures now[next] == 0 <==> next !in s.dist
  {
    var pos := s.order[head];
    ReachesStep(Water(working), seeds[s.owner[pos]], pos, next, s.dist[pos]);
    assert Reached(Water(working), seeds, next);
    assert next in seeds ==> next in s.order;
  }

  lemma GrownPaint(working: set<Pixel>, seeds: seq<Pixel>, s: Search<Pixel>, pos: Pixel, was: map<Pixel, int>,
                   now: map<Pixel, int>, next: Pixel)
    requires Domain(s) && Grown(working, seeds, s, was, now) && pos in s.dist
    requires next in working && next !in s.dist && next in now
    requires Domain(Discover(s, pos, next))
    ensures Grown(working, seeds, Discover(s, pos, next), was, now[next := now[pos]])
  {
  }

  lemma GrownDiscover(working: set<Pixel>, seeds: seq<Pixel>, s: Search<Pixel>, head: nat, was: map<Pixel, int>,
                      now: map<Pixel, int>, next: Pixel)
    requires Frontier(Water(working), seeds, s, head) && head < |s.order| && Grown(working, seeds, s, was, now)
    requires Water(working)(s.order[head], next) && next !in s.dist && next in now
    ensures s.order[head] in now && s.order[head] in s.dist && s.order[head] in s.owner
    ensures Frontier(Water(working), seeds, Discover(s, s.order[head], next), head)
    ensures Domain(Discover(s, s.order[head], next))
    ensures Grown(working, seeds, Discover(s, s.order[head], next), was, now[next := now[s.order[head]]])
  {
    var pos := s.order[head];
    assert pos in s.order;
    DiscoverFrontier(Water(working), seeds, s, head, next);
    GrownPaint(working, seeds, s, pos, was, now, next);
  }

  lemma GrownEnd(working: set<Pixel>, seeds: seq<Pixel>, s: Search<Pixel>, was: map<Pixel, int>, now: map<Pixel, int>)
    requires Frontier(Water(working), seeds, s, |s.order|) && Grown(working, seeds, s, was, now)
    ensures Flooded(working, seeds, was, now)
  {
    var adj := Water(working);
    SearchComplete(adj, seeds, s);
    forall p, i: nat, n: nat | Claims(adj, seeds, p, i, n)
      ensures p in now && seeds[i] in was && now[p] == was[seeds[i]]
    {
      assert Reached(adj, seeds, p);
      assert p in s.order;
      ClaimsUnique(adj, seeds, p, i, n, s.owner[p], s.dist[p]);
    }
  }

  /** Every pixel a seed reaches has the label of its claiming seed; every other pixel is unchanged. */
  ghost predicate Flooded(working: set<Pixel>, seeds: seq<Pixel>, was: map<Pixel, int>, now: map<Pixel, int>) {
    now.Keys == was.Keys &&
    (forall p, i: nat, n: nat :: Claims(Water(working), seeds, p, i, n) ==>
       p in now && seeds[i] in was && now[p] == was[seeds[i]]) &&
    (forall p :: p in now && !Reached(Water(working), seeds, p) ==> now[p] == was[p])
  }

  method Paint(labels: array2<int>, p: Pixel, z: int)
    requires p in View(labels)
    modifies labels
    ensures View(labels) == old(View(labels))[p := z]
  {
    labels[p.row, p.col] := z;
  }

  /** Labels and queues one neighbour of the pixel just taken from the queue, if it is unlabelled water. */
  method VisitOne(labels: array2<int>, working: set<Pixel>, pos: Pixel, z: int, next: Pixel, waiting: seq<Pixel>,
                  ghost seeds: seq<Pixel>, ghost known: Search<Pixel>, ghost head: nat, ghost was: map<Pixel, int>)
    returns (dq: seq<Pixel>, ghost s: Search<Pixel>)
    requires Fresh(working, seeds, was) && pos in View(labels) && View(labels)[pos] == z
    requires Domain(known) && Frontier(Water(working), seeds, known, head) && head < |known.order|
    requires known.order[head] == pos && waiting == known.order[head + 1..]
    requires Grown(working, seeds, known, was, View(labels)) && working <= was.Keys == View(labels).Keys
    requires next in working ==> Water(working)(pos, next)
    modifies labels
    ensures Domain(s) && Frontier(Water(working), seeds, s, head) && head < |s.order|
    ensures s.order[head] == pos && dq == s.order[head + 1..]
    ensures Grown(working, seeds, s, was, View(labels)) && View(labels).Keys == was.Keys && View(labels)[pos] == z
    ensures known.dist.Keys <= s.dist.Keys <= known.dist.Keys + {next} && (next in working ==> next in s.dist)
    ensures s.dist.Keys == known.dist.Keys ==> dq == waiting
  {
    hide Frontier, Domain, Grown, Flooded, Fresh, Discover, Water, Frame;
    dq, s := waiting, known;
    if Inside(labels.Length0, labels.Length1, next) && next in working {
      HeadKnown(working, seeds, known, head, was, View(labels));
      UnlabelledIsUnseen(working, seeds, s, head, was, View(labels), next);
      if labels[next.row, next.col] == 0 {
        GrownDiscover(working, seeds, s, head, was, View(labels), next);
        Paint(labels, next, z);
        DiscoverShape(s, pos, next);
        s := Discover(s, pos, next);
        dq := dq + [next];
      }
    }
  }

  /** Labels and queues the unlabelled working neighbours of the pixel just taken from the queue. */
  method VisitNeighbours(labels: array2<int>, working: set<Pixel>, pos: Pixel, waiting: seq<Pixel>,
                         ghost seeds: seq<Pixel>, ghost known: Search<Pixel>, ghost head: nat, ghost was: map<Pixel,
                           int>)
    returns (dq: seq<Pixel>, ghost s: Search<Pixel>)
    requires Fresh(working, seeds, was)
    requires Domain(known) && Frontier(Water(working), seeds, known, head) && head < |known.order|
    requires known.order[head] == pos && waiting == known.order[head + 1..]
    requires Grown(working, seeds, known, was, View(labels))
    modifies labels
    ensures Domain(s) && Frontier(Water(working), seeds, s, head + 1) && head < |s.order| && dq == s.order[head + 1..]
    ensures Grown(working, seeds, s, was, View(labels))
    ensures known.dist.Keys <= s.dist.Keys <= was.Keys
    ensures known.dist.Keys == s.dist.Keys ==> dq == waiting
  {
    hide Frontier, Domain, Grown, Flooded, Fresh, Discover, Toward, Water, Frame;
    HeadKnown(working, seeds, known, head, was, View(labels));
    dq, s := waiting, known;
    var z := labels[pos.row, pos.col];
    for k := 0 to 4
      invariant head < |s.order| && s.order[head] == pos && Domain(s) && Frontier(Water(working), seeds, s, head)
      invariant dq == s.order[head + 1..] && pos in working && working <= was.Keys == View(labels).Keys
      invariant known.dist.Keys <= s.dist.Keys <= was.Keys
      invariant s.dist.Keys == known.dist.Keys ==> dq == waiting
      invariant Grown(working, seeds, s, was, View(labels)) && View(labels)[pos] == z
      invariant forall l :: 0 <= l < k && Toward(l, pos) in working ==> Toward(l, pos) in s.dist
    {
      TowardSteps(working, k, pos);
      dq, s := VisitOne(labels, working, pos, z, Toward(k, pos), dq, seeds, s, head, was);
      HeadKnown(working, seeds, s, head, was, View(labels));
    }
    NeighboursTried(working, pos);
    AdvanceFrontier(Water(working), seeds, s, head);
  }

  /** Breadth-first propagation from the seeds, whose reach starts unlabelled apart from themselves. */
  method Spread(labels: array2<int>, working: set<Pixel>, seeds: seq<Pixel>)
    requires Fresh(working, seeds, View(labels))
    modifies labels
    ensures Flooded(working, seeds, old(View(labels)), View(labels))
  {
    hide Frontier, Domain, Grown, Flooded;
    var dq := seeds;
    ghost var was := View(labels);
    ghost var s, head := Start(seeds), 0;
    GrownStart(working, seeds, was);
    while dq != []
      invariant head <= |s.order| && Domain(s) && Frontier(Water(working), seeds, s, head) && dq == s.order[head..]
      invariant Grown(working, seeds, s, was, View(labels))
      decreases was.Keys - s.dist.Keys, |dq|
    {
      var pos := dq[0];
      dq, s := VisitNeighbours(labels, working, pos, dq[1..], seeds, s, head, was);
      head := head + 1;
    }
    GrownEnd(working, seeds, s, was, View(labels));
  }

  lemma DiscoverShape(s: Search<Pixel>, u: Pixel, v: Pixel)
    requires u in s.dist && u in s.owner
    ensures Discover(s, u, v).order == s.order + [v] && Discover(s, u, v).dist.Keys == s.dist.Keys + {v}
  {
  }

  lemma TowardSteps(working: set<Pixel>, k: nat, p: Pixel)
    requires k < 4
    ensures p in working && Toward(k, p) in working ==> Water(working)(p, Toward(k, p))
  {
  }

  lemma NeighboursTried(working: set<Pixel>, pos: Pixel)
    ensures forall v :: Water(working)(pos, v) ==> v in working && exists k :: 0 <= k < 4 && v == Toward(k, pos)
  {
    forall v | Water(working)(pos, v)
      ensures exists k :: 0 <= k < 4 && v == Toward(k, pos)
    {
      assert v == Toward(0, pos) || v == Toward(1, pos) || v == Toward(2, pos) || v == Toward(3, pos);
    }
  }

  lemma HeadKnown(working: set<Pixel>, seeds: seq<Pixel>, s: Search<Pixel>, head: nat, was: map<Pixel, int>,
                  now: map<Pixel, int>)
    requires Domain(s) && head < |s.order| && Fresh(working, seeds, was) && Grown(working, seeds, s, was, now)
    ensures s.order[head] in working && s.order[head] in now && working <= was.Keys &&
              s.dist.Keys <= was.Keys == now.Keys
  {
    assert s.order[head] in s.order;
  }

  // ------------------------------------------------- the component shortcut

  /** The queue restricted to a mask, in queue order. */
  function Only(queue: seq<Pixel>, mask: set<Pixel>): seq<Pixel> {
    if queue == [] then []
    else
      var last := queue[|queue| - 1];
      Only(queue[..|queue| - 1], mask) + if last in mask then [last] else []
  }

  /** Where in the queue the pixels of Only come from. */
  ghost function Origins(queue: seq<Pixel>, mask: set<Pixel>): seq<nat> {
    if queue == [] then []
    else Origins(queue[..|queue| - 1], mask) + if queue[|queue| - 1] in mask then [|queue| - 1] else []
  }

  lemma {:induction false} OnlyOrigins(queue: seq<Pixel>, mask: set<Pixel>)
    ensures |Origins(queue, mask)| == |Only(queue, mask)|
    ensures forall k :: 0 <= k < |Only(queue, mask)| ==>
              Origins(queue, mask)[k] < |queue| && Only(queue, mask)[k] == queue[Origins(queue, mask)[k]] &&
              Only(queue, mask)[k] in mask
    ensures forall k, l :: 0 <= k < l < |Only(queue, mask)| ==> Origins(queue, mask)[k] < Origins(queue, mask)[l]
    ensures forall i :: 0 <= i < |queue| && queue[i] in mask ==> i in Origins(queue, mask)
  {
    if queue != [] {
      OnlyOrigins(queue[..|queue| - 1], mask);
    }
  }

  /** Dropping seeds that do not reach a pixel leaves its claiming seed in place. */
  lemma OnlyClaims(working: set<Pixel>, queue: seq<Pixel>, mask: set<Pixel>, p: Pixel, i: nat, n: nat)
    requires Claims(Water(working), queue, p, i, n) && queue[i] in mask
    ensures exists k :: 0 <= k < |Only(queue, mask)| && Only(queue, mask)[k] == queue[i] &&
              Claims(Water(working), Only(queue, mask), p, k, n)
  {
    OnlyOrigins(queue, mask);
    var few, from := Only(queue, mask), Origins(queue, mask);
    var k :| 0 <= k < |from| && from[k] == i;
    forall j: nat, m: nat | j < |few| && Reaches(Water(working), few[j], p, m)
      ensures n < m || (n == m && k <= j)
    {
      assert few[j] == queue[from[j]];
      assert j < k ==> from[j] < i;
    }
    assert Claims(Water(working), few, p, k, n);
  }

  ghost function Zones(view: map<Pixel, int>, queue: seq<Pixel>): seq<int>
    requires forall p :: p in queue ==> p in view
  {
    seq(|queue|, i requires 0 <= i < |queue| => view[queue[i]])
  }

  /** The state seed placement leaves: exactly the queued pixels are labelled. */
  ghost predicate Seeded0(working: set<Pixel>, queue: seq<Pixel>, was: map<Pixel, int>) {
    Distinct(queue) && working <= was.Keys && (forall p :: p in queue ==> p in working) &&
    forall p :: p in was ==> (was[p] != 0 <==> p in queue)
  }

  ghost predicate Labelled(working: set<Pixel>, queue: seq<Pixel>, was: map<Pixel, int>, now: map<Pixel, int>)
    requires forall p :: p in queue ==> p in was
  {
    now.Keys == was.Keys && forall p :: p in now ==> now[p] == Territory(working, queue, Zones(was, queue), p)
  }

  lemma ReachedKnown(working: set<Pixel>, queue: seq<Pixel>, p: Pixel)
    requires Reached(Water(working), queue, p)
    ensures exists i: nat, n: nat :: Claims(Water(working), queue, p, i, n)
  {
    var j: nat, m: nat :| j < |queue| && Reaches(Water(working), queue[j], p, m);
    ClaimExists(working, queue, p, j, m);
  }

  lemma QueuedIsReached(working: set<Pixel>, queue: seq<Pixel>, p: Pixel)
    ensures p in queue ==> Reached(Water(working), queue, p)
  {
    if p in queue {
      ReachesSelf(Water(working), p);
      assert Reaches(Water(working), queue[Index(queue, p)], p, 0);
    }
  }

  /** The plain search over the whole seed queue labels the territory. */
  lemma PlainSearch(working: set<Pixel>, queue: seq<Pixel>, was: map<Pixel, int>, now: map<Pixel, int>)
    requires Seeded0(working, queue, was) && Flooded(working, queue, was, now)
    ensures Labelled(working, queue, was, now)
  {
    forall p | p in now
      ensures now[p] == Territory(working, queue, Zones(was, queue), p)
    {
      if Reached(Water(working), queue, p) {
        ReachedKnown(working, queue, p);
        var i: nat, n: nat :| Claims(Water(working), queue, p, i, n);
        TerritoryIs(working, queue, Zones(was, queue), p, i, n);
      } else {
        QueuedIsReached(working, queue, p);
      }
    }
  }

  /** The zones whose seeds lie in component c, over the first n queued seeds. */
  ghost function ZonesIn(comp: map<Pixel, nat>, queue: seq<Pixel>, was: map<Pixel, int>, n: nat, c: nat): set<int>
    requires n <= |queue| && forall p :: p in queue ==> p in comp && p in was
  {
    set i | 0 <= i < n && comp[queue[i]] == c :: was[queue[i]]
  }

  /** p lies in one of the components 1 .. upto, and that component is seeded by one zone only. */
  ghost predicate Single(comp: map<Pixel, nat>, zonesIn: map<nat, set<int>>, upto: nat, p: Pixel) {
    p in comp && comp[p] <= upto && comp[p] in zonesIn && |zonesIn[comp[p]]| == 1
  }

  /** What the wholesale pass over components 1 .. upto leaves: single-zone bodies are labelled, the pixels of
      bodies with several zones are marked, everything else is untouched. */
  ghost predicate Wholesale(comp: map<Pixel, nat>, zonesIn: map<nat, set<int>>, upto: nat, was: map<Pixel, int>,
                            now: map<Pixel, int>, multi: set<Pixel>)
  {
    now.Keys == was.Keys &&
    (forall p :: p in now && Single(comp, zonesIn, upto, p) ==> zonesIn[comp[p]] == {now[p]}) &&
    (forall p :: p in now && !Single(comp, zonesIn, upto, p) ==> now[p] == was[p]) &&
    (forall p :: p in multi <==> p in comp && comp[p] <= upto && comp[p] in zonesIn && |zonesIn[comp[p]]| != 1)
  }

  ghost predicate Classified(comp: map<Pixel, nat>, queue: seq<Pixel>, was: map<Pixel, int>, n: nat, zonesIn: map<nat,
                             set<int>>)
    requires n <= |queue| && forall p :: p in queue ==> p in comp && p in was
  {
    (forall i :: 0 <= i < n ==> comp[queue[i]] in zonesIn) &&
    (forall c :: c in zonesIn ==> zonesIn[c] == ZonesIn(comp, queue, was, n, c) &&
                                  exists i :: 0 <= i < n && comp[queue[i]] == c)
  }

  lemma SoleElement(s: set<int>)
    requires |s| == 1
    ensures exists z :: z in s && s == {z}
  {
    assert (forall z :: z !in s) ==> s == {};
    var z :| z in s;
    assert |s - {z}| == 0;
    assert s == {z};
  }

  lemma ClaimReaches(working: set<Pixel>, queue: seq<Pixel>, p: Pixel, i: nat, n: nat)
    requires Claims(Water(working), queue, p, i, n)
    ensures i < |queue| && Reaches(Water(working), queue[i], p, n)
  {
  }

  lemma SeedsOfBody(working: set<Pixel>, comp: map<Pixel, nat>, count: nat, queue: seq<Pixel>, p: Pixel, j: nat)
    requires ComponentLabelling(working, comp, count) && j < |queue| && queue[j] in working
    ensures (exists m: nat :: Reaches(Water(working), queue[j], p, m)) <==> p in working && comp[p] == comp[queue[j]]
  {
    if m: nat :| Reaches(Water(working), queue[j], p, m) {
      ReachedInWater(working, queue[j], p, m);
    }
  }

  /** The search stays within the marked bodies. */
  lemma FewStayInMulti(working: set<Pixel>, comp: map<Pixel, nat>, count: nat, queue: seq<Pixel>,
                       zonesIn: map<nat, set<int>>, was: map<Pixel, int>, mid: map<Pixel, int>, multi: set<Pixel>,
                         p: Pixel)
    requires ComponentLabelling(working, comp, count) && forall q :: q in queue ==> q in working
    requires Wholesale(comp, zonesIn, count, was, mid, multi)
    requires Reached(Water(working), Only(queue, multi), p)
    ensures p in multi
  {
    OnlyOrigins(queue, multi);
    var few := Only(queue, multi);
    var j: nat, m: nat :| j < |few| && Reaches(Water(working), few[j], p, m);
    SeedsOfBody(working, comp, count, few, p, j);
  }

  lemma OnlyMembers(queue: seq<Pixel>, multi: set<Pixel>, p: Pixel)
    ensures p in Only(queue, multi) <==> p in queue && p in multi
  {
    OnlyOrigins(queue, multi);
    if p in queue && p in multi {
      assert Index(queue, p) in Origins(queue, multi);
      var k :| 0 <= k < |Origins(queue, multi)| && Origins(queue, multi)[k] == Index(queue, p);
      assert Only(queue, multi)[k] == p;
    }
  }

  /** The bodies left to the search are fresh for it: only their seeds carry labels. */
  lemma MultiFresh(working: set<Pixel>, comp: map<Pixel, nat>, count: nat, queue: seq<Pixel>, zonesIn: map<nat,
                   set<int>>,
                   was: map<Pixel, int>, mid: map<Pixel, int>, multi: set<Pixel>)
    requires ComponentLabelling(working, comp, count) && Seeded0(working, queue, was)
    requires Wholesale(comp, zonesIn, count, was, mid, multi)
    ensures Fresh(working, Only(queue, multi), mid)
  {
    forall p | p in working && Reached(Water(working), Only(queue, multi), p)
      ensures mid[p] != 0 <==> p in Only(queue, multi)
    {
      FewStayInMulti(working, comp, count, queue, zonesIn, was, mid, multi, p);
      OnlyMembers(queue, multi, p);
    }
    OnlyOrigins(queue, multi);
    assert Distinct(Only(queue, multi));
    forall p | p in Only(queue, multi)
      ensures p in working
    {
      OnlyMembers(queue, multi, p);
    }
  }

  /** Labelling single-zone bodies wholesale and searching only the others gives every pixel its territory. */
  lemma ShortcutExact(working: set<Pixel>, comp: map<Pixel, nat>, count: nat, queue: seq<Pixel>, zonesIn: map<nat,
                      set<int>>,
                      was: map<Pixel, int>, mid: map<Pixel, int>, multi: set<Pixel>, now: map<Pixel, int>)
    requires ComponentLabelling(working, comp, count) && Seeded0(working, queue, was)
    requires Classified(comp, queue, was, |queue|, zonesIn) && Wholesale(comp, zonesIn, count, was, mid, multi)
    requires Flooded(working, Only(queue, multi), mid, now)
    ensures Labelled(working, queue, was, now)
  {
    forall p | p in now
      ensures now[p] == Territory(working, queue, Zones(was, queue), p)
    {
      if Reached(Water(working), queue, p) {
        ShortcutReached(working, comp, count, queue, zonesIn, was, mid, multi, now, p);
      } else {
        ShortcutUnreached(working, comp, count, queue, zonesIn, was, mid, multi, now, p);
      }
    }
  }

  lemma ShortcutReached(working: set<Pixel>, comp: map<Pixel, nat>, count: nat, queue: seq<Pixel>, zonesIn: map<nat,
                        set<int>>,
                        was: map<Pixel, int>, mid: map<Pixel, int>, multi: set<Pixel>, now: map<Pixel, int>, p: Pixel)
    requires ComponentLabelling(working, comp, count) && Seeded0(working, queue, was)
    requires Classified(comp, queue, was, |queue|, zonesIn) && Wholesale(comp, zonesIn, count, was, mid, multi)
    requires Flooded(working, Only(queue, multi), mid, now) && p in now && Reached(Water(working), queue, p)
    ensures now[p] == Territory(working, queue, Zones(was, queue), p)
  {
    hide Claims, Reached, Territory, Classified, Water;
    ReachedKnown(working, queue, p);
    var i: nat, n: nat :| Claims(Water(working), queue, p, i, n);
    ClaimReaches(working, queue, p, i, n);
    TerritoryIs(working, queue, Zones(was, queue), p, i, n);
    SeedsOfBody(working, comp, count, queue, p, i);
    if p in multi {
      OnlyClaims(working, queue, multi, p, i, n);
      assert mid[queue[i]] == was[queue[i]];
    } else {
      SingleZone(comp, queue, zonesIn, count, was, p, i);
      assert !Reached(Water(working), Only(queue, multi), p) by {
        if Reached(Water(working), Only(queue, multi), p) {
          FewStayInMulti(working, comp, count, queue, zonesIn, was, mid, multi, p);
        }
      }
    }
  }

  lemma SingleZone(comp: map<Pixel, nat>, queue: seq<Pixel>, zonesIn: map<nat, set<int>>, count: nat, was: map<Pixel,
                   int>,
                   p: Pixel, i: nat)
    requires forall q :: q in queue ==> q in comp && q in was
    requires Classified(comp, queue, was, |queue|, zonesIn)
    requires i < |queue| && p in comp && comp[p] == comp[queue[i]]
    ensures comp[p] in zonesIn && was[queue[i]] in zonesIn[comp[p]]
  {
  }

  lemma ShortcutUnreached(working: set<Pixel>, comp: map<Pixel, nat>, count: nat, queue: seq<Pixel>, zonesIn: map<nat,
                          set<int>>,
                          was: map<Pixel, int>, mid: map<Pixel, int>, multi: set<Pixel>, now: map<Pixel, int>, p: Pixel)
    requires ComponentLabelling(working, comp, count) && Seeded0(working, queue, was)
    requires Classified(comp, queue, was, |queue|, zonesIn) && Wholesale(comp, zonesIn, count, was, mid, multi)
    requires Flooded(working, Only(queue, multi), mid, now) && p in now && !Reached(Water(working), queue, p)
    ensures now[p] == 0
  {
    QueuedIsReached(working, queue, p);
    forall j: nat | j < |queue|
      ensures !(p in working && comp[p] == comp[queue[j]])
    {
      SeedsOfBody(working, comp, count, queue, p, j);
    }
    assert p !in multi && !Single(comp, zonesIn, count, p);
    assert !Reached(Water(working), Only(queue, multi), p) by {
      if Reached(Water(working), Only(queue, multi), p) {
        FewStayInMulti(working, comp, count, queue, zonesIn, was, mid, multi, p);
      }
    }
  }

  /** Growth with the component shortcut: after it every pixel of the raster carries exactly its territory. */
  method GrowLabels(labels: array2<int>, working: set<Pixel>, queue: seq<Pixel>, comp: map<Pixel, nat>, count: nat)
    requires ComponentLabelling(working, comp, count)
    requires Seeded0(working, queue, View(labels))
    modifies labels
    ensures Labelled(working, queue, old(View(labels)), View(labels))
  {
    ghost var was := View(labels);
    var zonesIn := Classify(labels, queue, comp, working);
    var multi: set<Pixel> := {};
    for cid := 1 to count + 1
      invariant Wholesale(comp, zonesIn, cid - 1, was, View(labels), multi)
    {
      multi := Whole(labels, comp, zonesIn, cid, multi, was);
    }
    var few := Only(queue, multi);
    ghost var mid := View(labels);
    MultiFresh(working, comp, count, queue, zonesIn, was, mid, multi);
    if few != [] {
      Spread(labels, working, few);
    }
    ShortcutExact(working, comp, count, queue, zonesIn, was, mid, multi, View(labels));
  }

  /** One round of the wholesale pass: component cid. */
  method Whole(labels: array2<int>, comp: map<Pixel, nat>, zonesIn: map<nat, set<int>>, cid: nat, marked: set<Pixel>,
               ghost was: map<Pixel, int>)
    returns (multi: set<Pixel>)
    requires 1 <= cid && Wholesale(comp, zonesIn, cid - 1, was, View(labels), marked)
    modifies labels
    ensures Wholesale(comp, zonesIn, cid, was, View(labels), multi)
  {
    multi := marked;
    if cid in zonesIn {
      var zones := zonesIn[cid];
      if |zones| == 1 {
        SoleElement(zones);
        var z :| z in zones;
        forall r, c | 0 <= r < labels.Length0 && 0 <= c < labels.Length1 && Pixel(r, c) in comp &&
          comp[Pixel(r, c)] == cid {
          labels[r, c] := z;
        }
      } else {
        multi := multi + set p | p in comp && comp[p] == cid;
      }
    }
  }

  lemma NoneClassified(comp: map<Pixel, nat>, queue: seq<Pixel>, was: map<Pixel, int>)
    requires forall p :: p in queue ==> p in comp && p in was
    ensures Classified(comp, queue, was, 0, map[])
  {
  }

  lemma ClassifyStep(comp: map<Pixel, nat>, queue: seq<Pixel>, was: map<Pixel, int>, i: nat, zonesIn: map<nat,
                     set<int>>)
    requires i < |queue| && (forall p :: p in queue ==>
               p in comp && p in was) && Classified(comp, queue, was, i, zonesIn)
    ensures var c := comp[queue[i]];
            Classified(comp, queue, was, i + 1,
              zonesIn[c := (if c in zonesIn then zonesIn[c] else {}) + {was[queue[i]]}])
  {
    forall c ensures ZonesIn(comp, queue, was, i + 1, c) ==
                     ZonesIn(comp, queue, was, i, c) + if c == comp[queue[i]] then {was[queue[i]]} else {}
    {
    }
    var c := comp[queue[i]];
    assert c !in zonesIn ==> ZonesIn(comp, queue, was, i, c) == {};
  }

  /** The zones seeding each component. */
  method Classify(labels: array2<int>, queue: seq<Pixel>, comp: map<Pixel, nat>, ghost working: set<Pixel>)
    returns (zonesIn: map<nat, set<int>>)
    requires Seeded0(working, queue, View(labels)) && working == comp.Keys
    ensures Classified(comp, queue, View(labels), |queue|, zonesIn)
  {
    zonesIn := map[];
    hide Classified;
    ghost var was := View(labels);
    NoneClassified(comp, queue, was);
    for i := 0 to |queue|
      invariant Classified(comp, queue, was, i, zonesIn)
    {
      var pos := queue[i];
      assert pos in queue && pos in was && was[pos] == labels[pos.row, pos.col];
      ClassifyStep(comp, queue, was, i, zonesIn);
      var c := comp[pos];
      var so := if c in zonesIn then zonesIn[c] else {};
      zonesIn := zonesIn[c := so + {labels[pos.row, pos.col]}];
    }
  }

  lemma SeededIsFresh(working: set<Pixel>, queue: seq<Pixel>, was: map<Pixel, int>)
    requires Seeded0(working, queue, was)
    ensures Fresh(working, queue, was)
  {
  }

  /** Growth without the shortcut: one search over the whole queue. */
  method PlainLabels(labels: array2<int>, working: set<Pixel>, queue: seq<Pixel>)
    requires Seeded0(working, queue, View(labels))
    modifies labels
    ensures Labelled(working, queue, old(View(labels)), View(labels))
  {
    ghost var was := View(labels);
    SeededIsFresh(working, queue, was);
    Spread(labels, working, queue);
    PlainSearch(working, queue, was, View(labels));
  }

  /** Both ways on the same seeded raster: the shortcut changes nothing, and no pixel outside the working water is
      labelled. */
  method ShortcutRefinesPlain(plain: array2<int>, fast: array2<int>, working: set<Pixel>, queue: seq<Pixel>,
                              comp: map<Pixel, nat>, count: nat)
    requires plain != fast && View(plain) == View(fast)
    requires ComponentLabelling(working, comp, count) && Seeded0(working, queue, View(fast))
    modifies plain, fast
    ensures View(fast) == View(plain)
    ensures forall p :: p in View(fast) && p !in working ==> View(fast)[p] == 0
  {
    hide Labelled, Seeded0, ComponentLabelling;
    ghost var was := View(fast);
    PlainLabels(plain, working, queue);
    assert View(fast) == was;
    GrowLabels(fast, working, queue, comp, count);
    OneLabelling(working, queue, was, View(plain), View(fast));
  }

  /** A seeded raster has one labelling, and it leaves dry pixels blank. */
  lemma OneLabelling(working: set<Pixel>, queue: seq<Pixel>, was: map<Pixel, int>, a: map<Pixel, int>, b: map<Pixel,
                     int>)
    requires Seeded0(working, queue, was) && Labelled(working, queue, was, a) && Labelled(working, queue, was, b)
    ensures a == b && forall p :: p in b && p !in working ==> b[p] == 0
  {
    forall p | p in b && p !in working
      ensures b[p] == 0
    {
      if j: nat, m: nat :| j < |queue| && Reaches(Water(working), queue[j], p, m) {
        ReachedInWater(working, queue[j], p, m);
      }
    }
  }

  // --------------------------------------------------------------- placement

  /** Squared pixel distance first, then the row, then the column. */
  predicate Nearer(row: int, col: int, p: Pixel, q: Pixel) {
    var dp, dq := Gap2(row, col, p), Gap2(row, col, q);
    dp < dq || (dp == dq && (p.row < q.row || (p.row == q.row && p.col < q.col)))
  }

  function Gap2(row: int, col: int, p: Pixel): int {
    (p.row - row) * (p.row - row) + (p.col - col) * (p.col - col)
  }

  predicate InWindow(row: int, col: int, k: nat, p: Pixel) {
    row - k <= p.row <= row + k && col - k <= p.col <= col + k
  }

  /** The outcome of snapping: the nearest working pixel of the window, or nothing when the window holds none. */
  ghost predicate Snapped(working: set<Pixel>, row: int, col: int, k: nat, best: Option<Pixel>) {
    match best
    case Some(p) =>
      p in working && InWindow(row, col, k, p) &&
      forall q :: q in working && q != p && InWindow(row, col, k, q) ==> Nearer(row, col, p, q)
    case None => forall q :: q in working ==> !InWindow(row, col, k, q)
  }

  lemma SnappedUnique(working: set<Pixel>, row: int, col: int, k: nat, a: Option<Pixel>, b: Option<Pixel>)
    requires Snapped(working, row, col, k, a) && Snapped(working, row, col, k, b)
    ensures a == b
  {
  }

  lemma SquareNonNegative(x: int)
    ensures x * x >= 0 && (x != 0 ==> x * x > 0)
  {
  }

  /** Snaps a seed pixel to working water by scanning the window row by row. */
  method SnapSeed(h: nat, w: nat, working: set<Pixel>, row: int, col: int, k: nat) returns (best: Option<Pixel>)
    requires MaskFits(h, w, working)
    ensures Snapped(working, row, col, k, best)
  {
    var own := Pixel(row, col);
    if Inside(h, w, own) && own in working {
      forall q | q in working && q != own
        ensures Nearer(row, col, own, q)
      {
        SquareNonNegative(q.row - row);
        SquareNonNegative(q.col - col);
      }
      return Some(own);
    }
    best := None;
    for rr := row - k to row + k + 1
      invariant best.Some? ==> best.value in working && InWindow(row, col, k, best.value)
      invariant forall q :: q in working && InWindow(row, col, k, q) && q.row < rr ==>
                  best.Some? && (q == best.value || Nearer(row, col, best.value, q))
    {
      if rr < 0 || rr >= h {
        continue;
      }
      for cc := col - k to col + k + 1
        invariant best.Some? ==> best.value in working && InWindow(row, col, k, best.value)
        invariant forall q ::
                    q in working && InWindow(row, col, k, q) && (q.row < rr || (q.row == rr && q.col < cc)) ==>
                    best.Some? && (q == best.value || Nearer(row, col, best.value, q))
      {
        var here := Pixel(rr, cc);
        if cc < 0 || cc >= w || here !in working {
          continue;
        }
        if best.None? || Nearer(row, col, here, best.value) {
          best := Some(here);
        }
      }
    }
  }

  /** A sea zone: its seeds, already turned into pixels, and whether it is retired. */
  datatype Zone = Zone(seeds: seq<Pixel>, retired: bool)

  /** One snapped seed: the 1-based zone index, the pixel, and whether an earlier seed already holds it. */
  datatype Record = Record(zone: nat, pixel: Pixel, claimed: bool)

  ghost predicate TakenBefore(snapped: seq<Record>, i: nat, p: Pixel)
    requires i <= |snapped|
  {
    exists j :: 0 <= j < i && snapped[j].pixel == p
  }

  /** First claim wins: a record is claimed iff an earlier one snapped to the same pixel; the queue lists the
      unclaimed pixels in order, and exactly those carry a label, namely their own zone. */
  ghost predicate Placed(snapped: seq<Record>, queue: seq<Pixel>, view: map<Pixel, int>) {
    (forall i :: 0 <= i < |snapped| ==> (snapped[i].claimed <==> TakenBefore(snapped, i, snapped[i].pixel))) &&
    queue == Firsts(snapped) &&
    (forall i :: 0 <= i < |snapped| && !snapped[i].claimed ==>
       snapped[i].pixel in view && view[snapped[i].pixel] == snapped[i].zone) &&
    (forall p :: p in view && !TakenBefore(snapped, |snapped|, p) ==> view[p] == 0)
  }

  ghost function Firsts(snapped: seq<Record>): seq<Pixel> {
    if snapped == [] then []
    else
      var last := snapped[|snapped| - 1];
      Firsts(snapped[..|snapped| - 1]) + if last.claimed then [] else [last.pixel]
  }

  lemma {:induction false} FirstsExact(snapped: seq<Record>)
    requires forall i :: 0 <= i < |snapped| ==> (snapped[i].claimed <==> TakenBefore(snapped, i, snapped[i].pixel))
    ensures Distinct(Firsts(snapped))
    ensures forall p :: p in Firsts(snapped) <==> TakenBefore(snapped, |snapped|, p)
  {
    if snapped != [] {
      var rest := snapped[..|snapped| - 1];
      var last := snapped[|snapped| - 1];
      forall i | 0 <= i < |rest|
        ensures rest[i].claimed <==> TakenBefore(rest, i, rest[i].pixel)
      {
        assert snapped[i] == rest[i];
        assert snapped[i].claimed <==> TakenBefore(snapped, i, snapped[i].pixel);
      }
      FirstsExact(rest);
      assert last.claimed <==> TakenBefore(snapped, |rest|, last.pixel);
      forall p
        ensures TakenBefore(snapped, |snapped|, p) <==> TakenBefore(rest, |rest|, p) || p == last.pixel
      {
      }
      assert TakenBefore(rest, |rest|, last.pixel) <==> TakenBefore(snapped, |rest|, last.pixel);
    }
  }

  /** What placement leaves is what growth asks for. */
  lemma PlacedIsSeeded(working: set<Pixel>, snapped: seq<Record>, queue: seq<Pixel>, view: map<Pixel, int>)
    requires Placed(snapped, queue, view) && working <= view.Keys
    requires forall i :: 0 <= i < |snapped| ==> snapped[i].zone > 0 && snapped[i].pixel in working
    ensures Seeded0(working, queue, view)
  {
    FirstsExact(snapped);
    forall p | p in queue
      ensures p in view && view[p] != 0
    {
      PlacedLabel(snapped, queue, view, p);
    }
  }

  lemma PlacedLabel(snapped: seq<Record>, queue: seq<Pixel>, view: map<Pixel, int>, p: Pixel)
    requires Placed(snapped, queue, view) && p in queue
    ensures exists i :: 0 <= i < |snapped| && snapped[i].pixel == p && !snapped[i].claimed
  {
    FirstsExact(snapped);
    var j :| 0 <= j < |snapped| && snapped[j].pixel == p;
    while snapped[j].claimed
      invariant 0 <= j < |snapped| && snapped[j].pixel == p
      decreases j
    {
      assert TakenBefore(snapped, j, p);
      var earlier :| 0 <= earlier < j && snapped[earlier].pixel == p;
      j := earlier;
    }
  }

  /** The pixel a seed snaps to. */
  ghost function SnapOf(working: set<Pixel>, seed: Pixel, k: nat): Option<Pixel> {
    if exists b :: Snapped(working, seed.row, seed.col, k, b) then
      var b :| Snapped(working, seed.row, seed.col, k, b);
      b
    else None
  }

  /** The seeds of zone z that find water, with the pixels they find, in order. */
  ghost function ZoneHits(working: set<Pixel>, k: nat, z: nat, seeds: seq<Pixel>): seq<(nat, Pixel)> {
    if seeds == [] then []
    else
      var found := SnapOf(working, seeds[|seeds| - 1], k);
      ZoneHits(working, k, z, seeds[..|seeds| - 1]) + if found.Some? then [(z, found.value)] else []
  }

  ghost function Hits(working: set<Pixel>, k: nat, zones: seq<Zone>): seq<(nat, Pixel)> {
    if zones == [] then []
    else Hits(working, k, zones[..|zones| - 1]) + ZoneHits(working, k, |zones|, zones[|zones| - 1].seeds)
  }

  /** The seeds of zone z without water in reach; a retired zone needs none. */
  ghost function ZoneMisses(working: set<Pixel>, k: nat, z: nat, retired: bool, seeds: seq<Pixel>): seq<(nat, Pixel)> {
    if seeds == [] then []
    else
      ZoneMisses(working, k, z, retired, seeds[..|seeds| - 1]) +
      if SnapOf(working, seeds[|seeds| - 1], k).None? && !retired then [(z, seeds[|seeds| - 1])] else []
  }

  ghost function Misses(working: set<Pixel>, k: nat, zones: seq<Zone>): seq<(nat, Pixel)> {
    if zones == [] then []
    else
      var last := zones[|zones| - 1];
      Misses(working, k, zones[..|zones| - 1]) + ZoneMisses(working, k, |zones|, last.retired, last.seeds)
  }

  ghost function Pairs(snapped: seq<Record>): seq<(nat, Pixel)> {
    seq(|snapped|, i requires 0 <= i < |snapped| => (snapped[i].zone, snapped[i].pixel))
  }

  ghost predicate Wet(working: set<Pixel>, snapped: seq<Record>) {
    forall i :: 0 <= i < |snapped| ==> snapped[i].zone > 0 && snapped[i].pixel in working
  }

  lemma TakenMore(snapped: seq<Record>, rec: Record)
    ensures forall i, q :: 0 <= i <= |snapped| ==> (TakenBefore(snapped + [rec], i, q) <==> TakenBefore(snapped, i, q))
    ensures forall q :: TakenBefore(snapped + [rec], |snapped| + 1, q) <==>
              TakenBefore(snapped, |snapped|, q) || q == rec.pixel
  {
    var more := snapped + [rec];
    assert forall j :: 0 <= j < |snapped| ==> more[j] == snapped[j];
    assert more[|snapped|].pixel == rec.pixel;
  }

  lemma LabelledIsTaken(snapped: seq<Record>, queue: seq<Pixel>, view: map<Pixel, int>, p: Pixel)
    requires Placed(snapped, queue, view) && p in view
    requires forall i :: 0 <= i < |snapped| ==> snapped[i].zone > 0
    ensures view[p] != 0 <==> TakenBefore(snapped, |snapped|, p)
  {
    FirstsExact(snapped);
    if p in queue {
      PlacedLabel(snapped, queue, view, p);
    }
  }

  /** A pixel already taken is recorded as claimed and nothing else happens. */
  lemma PlacedTaken(snapped: seq<Record>, queue: seq<Pixel>, view: map<Pixel, int>, z: nat, p: Pixel)
    requires Placed(snapped, queue, view) && TakenBefore(snapped, |snapped|, p)
    ensures Placed(snapped + [Record(z, p, true)], queue, view)
  {
    hide TakenBefore;
    var more := snapped + [Record(z, p, true)];
    TakenMore(snapped, Record(z, p, true));
    assert more[..|snapped|] == snapped;
  }

  lemma NotTaken(snapped: seq<Record>, p: Pixel)
    requires !TakenBefore(snapped, |snapped|, p)
    ensures forall i :: 0 <= i < |snapped| ==> snapped[i].pixel != p
  {
  }

  /** A free pixel is recorded, queued and labelled. */
  lemma PlacedFree(snapped: seq<Record>, queue: seq<Pixel>, view: map<Pixel, int>, z: nat, p: Pixel)
    requires Placed(snapped, queue, view) && p in view && !TakenBefore(snapped, |snapped|, p)
    ensures Placed(snapped + [Record(z, p, false)], queue + [p], view[p := z])
  {
    hide TakenBefore;
    var more := snapped + [Record(z, p, false)];
    NotTaken(snapped, p);
    TakenMore(snapped, Record(z, p, false));
    assert more[..|snapped|] == snapped;
  }

  lemma PlacedStep(working: set<Pixel>, snapped: seq<Record>, queue: seq<Pixel>, view: map<Pixel, int>, z: nat,
                   p: Pixel)
    requires Placed(snapped, queue, view) && Wet(working, snapped) && z > 0 && p in working && p in view
    ensures view[p] != 0 <==> TakenBefore(snapped, |snapped|, p)
    ensures view[p] != 0 ==> Placed(snapped + [Record(z, p, true)], queue, view)
    ensures view[p] == 0 ==> Placed(snapped + [Record(z, p, false)], queue + [p], view[p := z])
  {
    hide Placed, TakenBefore;
    LabelledIsTaken(snapped, queue, view, p);
    if view[p] != 0 {
      PlacedTaken(snapped, queue, view, z, p);
    } else {
      PlacedFree(snapped, queue, view, z, p);
    }
  }

  /** Places one seed of zone z: snaps it, records it, and labels and queues its pixel unless it is taken. */
  method PlaceSeed(labels: array2<int>, working: set<Pixel>, seed: Pixel, k: nat, z: nat, queue0: seq<Pixel>,
                   snapped0: seq<Record>)
    returns (found: bool, queue: seq<Pixel>, snapped: seq<Record>)
    requires MaskFits(labels.Length0, labels.Length1, working) && z > 0
    requires Wet(working, snapped0) && Placed(snapped0, queue0, View(labels))
    modifies labels
    ensures Wet(working, snapped) && Placed(snapped, queue, View(labels))
    ensures found == SnapOf(working, seed, k).Some?
    ensures Pairs(snapped) == Pairs(snapped0) + if found then [(z, SnapOf(working, seed, k).value)] else []
  {
    hide Placed, Frame;
    queue, snapped := queue0, snapped0;
    var pixel := SnapSeed(labels.Length0, labels.Length1, working, seed.row, seed.col, k);
    SnappedUnique(working, seed.row, seed.col, k, pixel, SnapOf(working, seed, k));
    found := pixel.Some?;
    if found {
      var p := pixel.value;
      PlacedStep(working, snapped, queue, View(labels), z, p);
      var claimed := labels[p.row, p.col] != 0;
      snapped := snapped + [Record(z, p, claimed)];
      if !claimed {
        Paint(labels, p, z);
        queue := queue + [p];
      }
    }
  }

  /** Places the seeds of one zone in order. */
  method PlaceZone(labels: array2<int>, working: set<Pixel>, zone: Zone, k: nat, z: nat, queue0: seq<Pixel>,
                   snapped0: seq<Record>)
    returns (queue: seq<Pixel>, snapped: seq<Record>, errors: seq<(nat, Pixel)>)
    requires MaskFits(labels.Length0, labels.Length1, working) && z > 0
    requires Wet(working, snapped0) && Placed(snapped0, queue0, View(labels))
    modifies labels
    ensures Wet(working, snapped) && Placed(snapped, queue, View(labels))
    ensures Pairs(snapped) == Pairs(snapped0) + ZoneHits(working, k, z, zone.seeds)
    ensures errors == ZoneMisses(working, k, z, zone.retired, zone.seeds)
  {
    hide Placed, Frame, SnapOf, Pairs, Wet, View;
    queue, snapped, errors := queue0, snapped0, [];
    for i := 0 to |zone.seeds|
      invariant Wet(working, snapped) && Placed(snapped, queue, View(labels))
      invariant Pairs(snapped) == Pairs(snapped0) + ZoneHits(working, k, z, zone.seeds[..i])
      invariant errors == ZoneMisses(working, k, z, zone.retired, zone.seeds[..i])
    {
      var found;
      ghost var upto := zone.seeds[..i + 1];
      assert upto[..i] == zone.seeds[..i] && upto[|upto| - 1] == zone.seeds[i];
      found, queue, snapped := PlaceSeed(labels, working, zone.seeds[i], k, z, queue, snapped);
      if !found && !zone.retired {
        errors := errors + [(z, zone.seeds[i])];
      }
    }
    assert zone.seeds[..|zone.seeds|] == zone.seeds;
  }

  /** Places the seeds of all zones in order. The records are exactly the seeds that find water, the errors exactly
      the seeds of live zones that do not, and the raster is ready for growth. */
  method PlaceSeeds(h: nat, w: nat, working: set<Pixel>, zones: seq<Zone>, k: nat)
    returns (labels: array2<int>, queue: seq<Pixel>, snapped: seq<Record>, errors: seq<(nat, Pixel)>)
    requires MaskFits(h, w, working)
    ensures fresh(labels) && labels.Length0 == h && labels.Length1 == w
    ensures Pairs(snapped) == Hits(working, k, zones) && errors == Misses(working, k, zones)
    ensures Wet(working, snapped) && Placed(snapped, queue, View(labels))
    ensures Seeded0(working, queue, View(labels))
  {
    labels := new int[h, w]((r, c) => 0);
    queue, snapped, errors := [], [], [];
    assert Placed(snapped, queue, View(labels));
    hide Placed, Frame, SnapOf, Seeded0, Pairs;
    for z := 0 to |zones|
      invariant fresh(labels) && labels.Length0 == h && labels.Length1 == w
      invariant Wet(working, snapped) && Placed(snapped, queue, View(labels))
      invariant Pairs(snapped) == Hits(working, k, zones[..z]) && errors == Misses(working, k, zones[..z])
    {
      var missed;
      ghost var upto := zones[..z + 1];
      assert upto[..z] == zones[..z] && upto[|upto| - 1] == zones[z];
      queue, snapped, missed := PlaceZone(labels, working, zones[z], k, z + 1, queue, snapped);
      errors := errors + missed;
    }
    assert zones[..|zones|] == zones;
    PlacedIsSeeded(working, snapped, queue, View(labels));
  }
}
