/** From pixel contacts to the automatic coast and sea edges (tools/map_pipeline/graph.py): a pair of nodes gets an edge
    when its contact, scaled to map units, reaches the minimum border length. */
module ContactEdges {
  import opened Optional
  import opened NodeGraph
  import Contacts
  import Seas
  import Sorting

  type Counts = map<(int, int), nat>

  /** The nodes behind the labels: live zones by zone index, land nodes by label less one. */
  datatype World = World(seas: map<int, GraphNode>, lands: seq<GraphNode>)

  /** Ids are distinct over all nodes, and kinds are what the side says. */
  ghost predicate WorldOk(w: World) {
    && (forall z :: z in w.seas ==> w.seas[z].kind == SEA)
    && (forall l :: 0 <= l < |w.lands| ==> w.lands[l].kind == LAND)
    && (forall y, z :: y in w.seas && z in w.seas && y != z ==> w.seas[y].id != w.seas[z].id)
    && (forall k, l :: 0 <= k < l < |w.lands| ==> w.lands[k].id != w.lands[l].id)
    && (forall z, l :: z in w.seas && 0 <= l < |w.lands| ==> w.seas[z].id != w.lands[l].id)
  }

  function Ordered(a: int, b: int): Pair {
    if a <= b then (a, b) else (b, a)
  }

  predicate IsCoast(w: World, k: (int, int)) {
    k.0 in w.seas && 1 <= k.1 <= |w.lands|
  }

  predicate IsSea(w: World, k: (int, int)) {
    k.0 in w.seas && k.1 in w.seas
  }

  function CoastPair(w: World, k: (int, int)): Pair
    requires IsCoast(w, k)
  {
    Ordered(w.seas[k.0].id, w.lands[k.1 - 1].id)
  }

  function SeaPair(w: World, k: (int, int)): Pair
    requires IsSea(w, k)
  {
    Ordered(w.seas[k.0].id, w.seas[k.1].id)
  }

  /** The pair of a live zone and a land node, or of two live zones. */
  ghost predicate IsContactPair(w: World, p: Pair) {
    (exists z, l :: z > 0 && IsCoast(w, (z, l)) && p == CoastPair(w, (z, l))) ||
    (exists y, z :: 0 < y < z && IsSea(w, (y, z)) && p == SeaPair(w, (y, z)))
  }

  /** Enough contact for an edge. */
  predicate Kept(counts: Counts, k: (int, int), r: real, least: real)
    requires r > 0.0
  {
    k in counts && counts[k] as real / r >= least
  }

  function ContactEdge(p: Pair, t: EdgeType, length: real): Edge {
    Edge(p.0, p.1, t, Some(length), None, None, false)
  }

  /** Coast contacts of different labels, and coast and sea contacts, never fall on one pair. */
  lemma PairsDiffer(w: World, j: (int, int), k: (int, int))
    requires WorldOk(w)
    ensures IsCoast(w, j) && IsCoast(w, k) && CoastPair(w, j) == CoastPair(w, k) ==> j == k
    ensures IsSea(w, j) && IsSea(w, k) && j.0 < j.1 && k.0 < k.1 && SeaPair(w, j) == SeaPair(w, k) ==> j == k
    ensures IsCoast(w, j) && IsSea(w, k) ==> CoastPair(w, j) != SeaPair(w, k)
  {
  }

  ghost predicate CoastHeld(w: World, coast: Counts, r: real, least: real, done: seq<(int, int)>, edges: Table)
    requires r > 0.0
  {
    forall k :: k in done && IsCoast(w, k) && Kept(coast, k, r, least) ==>
      CoastPair(w, k) in edges &&
        edges[CoastPair(w, k)] == ContactEdge(CoastPair(w, k), CoastEdge, coast[k] as real / r)
  }

  ghost predicate SeaHeld(w: World, sea: Counts, r: real, least: real, done: seq<(int, int)>, edges: Table)
    requires r > 0.0
  {
    forall k :: k in done && IsSea(w, k) && Kept(sea, k, r, least) ==>
      SeaPair(w, k) in edges && edges[SeaPair(w, k)] == ContactEdge(SeaPair(w, k), SeaEdge, sea[k] as real / r)
  }

  /** Nothing else is in the table. */
  ghost predicate OnlyContacts(w: World, coast: Counts, sea: Counts, r: real, least: real, edges: Table)
    requires r > 0.0
  {
    forall p :: p in edges ==>
      || (exists k :: IsCoast(w, k) && Kept(coast, k, r, least) && p == CoastPair(w, k))
      || (exists k :: IsSea(w, k) && Kept(sea, k, r, least) && p == SeaPair(w, k))
  }

  lemma CoastAdded(w: World, coast: Counts, sea: Counts, r: real, least: real, done: seq<(int, int)>, k: (int, int),
                   edges: Table)
    requires WorldOk(w) && r > 0.0 && IsCoast(w, k) && Kept(coast, k, r, least)
    requires CoastHeld(w, coast, r, least, done, edges) && OnlyContacts(w, coast, sea, r, least, edges)
    ensures var p := CoastPair(w, k);
            var next := edges[p := ContactEdge(p, CoastEdge, coast[k] as real / r)];
            CoastHeld(w, coast, r, least, done + [k], next) && OnlyContacts(w, coast, sea, r, least, next)
  {
    forall j ensures IsCoast(w, j) && CoastPair(w, j) == CoastPair(w, k) ==> j == k {
      PairsDiffer(w, j, k);
    }
  }

  lemma SeaAdded(w: World, coast: Counts, sea: Counts, r: real, least: real, all: seq<(int, int)>, done: seq<(int,
                 int)>,
                 k: (int, int), edges: Table)
    requires WorldOk(w) && r > 0.0 && IsSea(w, k) && Kept(sea, k, r, least) && forall j :: j in sea ==> j.0 < j.1
    requires CoastHeld(w, coast, r, least, all, edges) && SeaHeld(w, sea, r, least, done, edges)
    requires OnlyContacts(w, coast, sea, r, least, edges)
    ensures var p := SeaPair(w, k);
            var next := edges[p := ContactEdge(p, SeaEdge, sea[k] as real / r)];
            && CoastHeld(w, coast, r, least, all, next) && SeaHeld(w, sea, r, least, done + [k], next)
            && OnlyContacts(w, coast, sea, r, least, next)
  {
    forall j ensures (IsCoast(w, j) ==> CoastPair(w, j) != SeaPair(w, k)) &&
                     (IsSea(w, j) && j.0 < j.1 && SeaPair(w, j) == SeaPair(w, k) ==> j == k)
    {
      PairsDiffer(w, j, k);
    }
  }

  method CoastEdges(w: World, coast: Counts, ghost sea: Counts, r: real, least: real, keys: seq<(int, int)>)
    returns (edges: Table)
    requires WorldOk(w) && r > 0.0 && forall k :: k in coast ==> 1 <= k.1 <= |w.lands|
    requires forall k :: k in keys ==> k in coast
    ensures CoastHeld(w, coast, r, least, keys, edges) && OnlyContacts(w, coast, sea, r, least, edges)
  {
    hide CoastHeld, OnlyContacts;
    edges := map[];
    NoneHeld(w, coast, sea, r, least);
    assert keys[..0] == [];
    for i := 0 to |keys|
      invariant CoastHeld(w, coast, r, least, keys[..i], edges) && OnlyContacts(w, coast, sea, r, least, edges)
    {
      var k := keys[i];
      assert k in keys && keys[..i + 1] == keys[..i] + [k];
      CoastSkipped(w, coast, r, least, keys[..i], k, edges);
      if k.0 !in w.seas {
        continue;
      }
      var length := coast[k] as real / r;
      if length < least {
        continue;
      }
      CoastAdded(w, coast, sea, r, least, keys[..i], k, edges);
      var p := Ordered(w.seas[k.0].id, w.lands[k.1 - 1].id);
      edges := edges[p := ContactEdge(p, CoastEdge, length)];
    }
    assert keys[..|keys|] == keys;
  }

  method SeaEdges(w: World, ghost coast: Counts, sea: Counts, r: real, least: real, ghost all: seq<(int, int)>,
                  keys: seq<(int, int)>, before: Table)
    returns (edges: Table)
    requires WorldOk(w) && r > 0.0 && forall j :: j in sea ==> j.0 < j.1
    requires forall k :: k in keys ==> k in sea
    requires CoastHeld(w, coast, r, least, all, before) && OnlyContacts(w, coast, sea, r, least, before)
    ensures CoastHeld(w, coast, r, least, all, edges) && SeaHeld(w, sea, r, least, keys, edges)
    ensures OnlyContacts(w, coast, sea, r, least, edges)
  {
    hide CoastHeld, OnlyContacts, SeaHeld;
    edges := before;
    NoSeaHeld(w, sea, r, least, edges);
    assert keys[..0] == [];
    for i := 0 to |keys|
      invariant CoastHeld(w, coast, r, least, all, edges) && SeaHeld(w, sea, r, least, keys[..i], edges)
      invariant OnlyContacts(w, coast, sea, r, least, edges)
    {
      var k := keys[i];
      assert k in keys && keys[..i + 1] == keys[..i] + [k];
      SeaSkipped(w, sea, r, least, keys[..i], k, edges);
      if k.0 !in w.seas || k.1 !in w.seas {
        continue;
      }
      var length := sea[k] as real / r;
      if length < least {
        continue;
      }
      SeaAdded(w, coast, sea, r, least, all, keys[..i], k, edges);
      var p := Ordered(w.seas[k.0].id, w.seas[k.1].id);
      edges := edges[p := ContactEdge(p, SeaEdge, length)];
    }
    assert keys[..|keys|] == keys;
  }

  lemma NoneHeld(w: World, coast: Counts, sea: Counts, r: real, least: real)
    requires r > 0.0
    ensures CoastHeld(w, coast, r, least, [], map[]) && OnlyContacts(w, coast, sea, r, least, map[])
  {
  }

  lemma NoSeaHeld(w: World, sea: Counts, r: real, least: real, edges: Table)
    requires r > 0.0
    ensures SeaHeld(w, sea, r, least, [], edges)
  {
  }

  lemma CoastSkipped(w: World, coast: Counts, r: real, least: real, done: seq<(int, int)>, k: (int, int), edges: Table)
    requires r > 0.0 && CoastHeld(w, coast, r, least, done, edges)
    ensures !(IsCoast(w, k) && Kept(coast, k, r, least)) ==> CoastHeld(w, coast, r, least, done + [k], edges)
  {
  }

  lemma SeaSkipped(w: World, sea: Counts, r: real, least: real, done: seq<(int, int)>, k: (int, int), edges: Table)
    requires r > 0.0 && SeaHeld(w, sea, r, least, done, edges)
    ensures !(IsSea(w, k) && Kept(sea, k, r, least)) ==> SeaHeld(w, sea, r, least, done + [k], edges)
  {
  }

  /** The table holds an edge for a pair exactly when the labels behind it touch enough. */
  ghost predicate Exact(w: World, coast: Counts, sea: Counts, r: real, least: real, edges: Table)
    requires r > 0.0
  {
    && (forall k :: IsCoast(w, k) ==>
          (CoastPair(w, k) in edges <==> Kept(coast, k, r, least)) &&
          (Kept(coast, k, r, least) ==>
            edges[CoastPair(w, k)] == ContactEdge(CoastPair(w, k), CoastEdge, coast[k] as real / r)))
    && (forall k :: IsSea(w, k) && k.0 < k.1 ==>
          (SeaPair(w, k) in edges <==> Kept(sea, k, r, least)) &&
          (Kept(sea, k, r, least) ==> edges[SeaPair(w, k)] == ContactEdge(SeaPair(w, k), SeaEdge, sea[k] as real / r)))
    && OnlyContacts(w, coast, sea, r, least, edges)
  }

  lemma HeldExact(w: World, coast: Counts, sea: Counts, r: real, least: real, ck: seq<(int, int)>, sk: seq<(int,
                  int)>, edges: Table)
    requires WorldOk(w) && r > 0.0 && forall j :: j in sea ==> j.0 < j.1
    requires (forall k :: k in coast ==> k in ck) && forall k :: k in sea ==> k in sk
    requires CoastHeld(w, coast, r, least, ck, edges) && SeaHeld(w, sea, r, least, sk, edges)
    requires OnlyContacts(w, coast, sea, r, least, edges)
    ensures Exact(w, coast, sea, r, least, edges)
  {
    forall k | IsCoast(w, k) && CoastPair(w, k) in edges ensures Kept(coast, k, r, least) {
      forall j ensures (IsCoast(w, j) && CoastPair(w, j) == CoastPair(w, k) ==> j == k) && (IsSea(w, j) ==>
        SeaPair(w, j) != CoastPair(w, k)) {
        PairsDiffer(w, j, k);
        PairsDiffer(w, k, j);
      }
    }
    forall k | IsSea(w, k) && k.0 < k.1 && SeaPair(w, k) in edges ensures Kept(sea, k, r, least) {
      forall j ensures (IsSea(w, j) && j.0 < j.1 && SeaPair(w, j) == SeaPair(w, k) ==>
        j == k) && (IsCoast(w, j) ==> CoastPair(w, j) != SeaPair(w, k)) {
        PairsDiffer(w, j, k);
      }
    }
  }

  /** INV-M2 holds of every automatic contact edge: different nodes, in order, of the kinds its type allows. */
  lemma ContactsSound(w: World, coast: Counts, sea: Counts, r: real, least: real, edges: Table, nodes: seq<GraphNode>)
    requires WorldOk(w) && r > 0.0 && Exact(w, coast, sea, r, least, edges) && forall j :: j in sea ==> j.0 < j.1
    requires (forall z :: z in w.seas ==> w.seas[z] in nodes) && forall l :: 0 <= l < |w.lands| ==> w.lands[l] in nodes
    ensures AllSound(nodes, edges)
  {
    hide EdgeSound, WorldOk;
    forall p | p in edges ensures EdgeSound(nodes, p, edges[p]) {
      if k :| IsCoast(w, k) && Kept(coast, k, r, least) && p == CoastPair(w, k) {
        CoastSound(w, nodes, k, edges[p]);
      } else {
        var k :| IsSea(w, k) && Kept(sea, k, r, least) && p == SeaPair(w, k);
        SeaSound(w, nodes, k, edges[p]);
      }
    }
  }

  lemma CoastSound(w: World, nodes: seq<GraphNode>, k: (int, int), e: Edge)
    requires WorldOk(w) && IsCoast(w, k) && (e.a, e.b) == CoastPair(w, k) && e.kind == CoastEdge
    requires (forall z :: z in w.seas ==> w.seas[z] in nodes) && forall l :: 0 <= l < |w.lands| ==> w.lands[l] in nodes
    ensures EdgeSound(nodes, CoastPair(w, k), e)
  {
    hide EdgeSound;
    var z, l := k.0, k.1 - 1;
    assert w.seas[z] in nodes && w.lands[l] in nodes;
    NodesSound(nodes, w.seas[z], w.lands[l], e);
  }

  lemma SeaSound(w: World, nodes: seq<GraphNode>, k: (int, int), e: Edge)
    requires WorldOk(w) && IsSea(w, k) && k.0 < k.1 && (e.a, e.b) == SeaPair(w, k) && e.kind == SeaEdge
    requires (forall z :: z in w.seas ==> w.seas[z] in nodes) && forall l :: 0 <= l < |w.lands| ==> w.lands[l] in nodes
    ensures EdgeSound(nodes, SeaPair(w, k), e)
  {
    hide EdgeSound;
    var y, z := k.0, k.1;
    assert w.seas[y] in nodes && w.seas[z] in nodes;
    NodesSound(nodes, w.seas[y], w.seas[z], e);
  }

  lemma NodesSound(nodes: seq<GraphNode>, m: GraphNode, n: GraphNode, e: Edge)
    requires m in nodes && n in nodes && m.id != n.id && (e.a, e.b) == Ordered(m.id, n.id)
    requires KindsOk(e.kind, m.kind, n.kind) && KindsOk(e.kind, n.kind, m.kind)
    ensures EdgeSound(nodes, Ordered(m.id, n.id), e)
  {
    var i :| 0 <= i < |nodes| && nodes[i] == m;
    var j :| 0 <= j < |nodes| && nodes[j] == n;
  }

  /** Every key of the counts, sorted. */
  method SortedKeys(counts: Counts) returns (keys: seq<(int, int)>)
    ensures forall k :: k in keys <==> k in counts
  {
    var listing := Listing(counts.Keys);
    Sorting.SortMembers(PairKey, listing);
    keys := Sorting.SortBy(PairKey, listing);
  }

  /** Counts the contacts of the two rasters and turns them into edges. A live zone and a land node get a coast edge
      exactly when some neighbouring pixels carry their labels and, at r pixels to the unit, there are enough of them;
      two live zones likewise get a sea edge; nothing else gets one. */
  method MakeContactEdges(zones: array2<int>, lands: array2<int>, w: World, r: real, least: real) returns (edges: Table)
    requires zones.Length0 == lands.Length0 && zones.Length1 == lands.Length1
    requires forall i, j :: 0 <= i < lands.Length0 && 0 <= j < lands.Length1 ==> lands[i, j] <= |w.lands|
    requires WorldOk(w) && r > 0.0
    ensures forall z, l :: z > 0 && IsCoast(w, (z, l)) ==>
              var c, p := |Contacts.Crossings(Seas.View(zones), Seas.View(lands), z, l)|, CoastPair(w, (z, l));
              (p in edges <==> c > 0 && c as real / r >= least) &&
              (p in edges ==> edges[p] == ContactEdge(p, CoastEdge, c as real / r))
    ensures forall y, z :: 0 < y < z && IsSea(w, (y, z)) ==>
              var c, p := |Contacts.Meetings(Seas.View(zones), y, z)|, SeaPair(w, (y, z));
              (p in edges <==> c > 0 && c as real / r >= least) &&
              (p in edges ==> edges[p] == ContactEdge(p, SeaEdge, c as real / r))
    ensures forall p :: p in edges ==> IsContactPair(w, p)
    ensures forall nodes: seq<GraphNode> ::
              (forall z :: z in w.seas ==> w.seas[z] in nodes) && (forall l :: 0 <= l < |w.lands| ==>
                w.lands[l] in nodes) ==>
              AllSound(nodes, edges)
  {
    hide CoastHeld, SeaHeld, OnlyContacts, AllSound, WorldOk;
    var coast, sea := Contacts.CountContacts(zones, lands);
    forall k | k in coast ensures 1 <= k.1 <= |w.lands| {
      assert Contacts.Get(coast, (k.0, k.1)) > 0;
      TouchedLabel(zones, lands, k.0, k.1);
    }
    var coastKeys := SortedKeys(coast);
    var seaKeys := SortedKeys(sea);
    edges := CoastEdges(w, coast, sea, r, least, coastKeys);
    edges := SeaEdges(w, coast, sea, r, least, coastKeys, seaKeys, edges);
    HeldExact(w, coast, sea, r, least, coastKeys, seaKeys, edges);
    forall nodes: seq<GraphNode> |
      (forall z :: z in w.seas ==> w.seas[z] in nodes) && (forall l :: 0 <= l < |w.lands| ==> w.lands[l] in nodes)
      ensures AllSound(nodes, edges)
    {
      ContactsSound(w, coast, sea, r, least, edges, nodes);
    }
    forall p | p in edges
      ensures IsContactPair(w, p)
    {
      ContactBehind(w, coast, sea, r, least, edges, p);
    }
    forall z, l | z > 0 && IsCoast(w, (z, l))
      ensures Kept(coast, (z, l), r, least) <==>
                var c := |Contacts.Crossings(Seas.View(zones), Seas.View(lands), z, l)|; c > 0 && c as real / r >= least
    {
      assert Contacts.Get(coast, (z, l)) == |Contacts.Crossings(Seas.View(zones), Seas.View(lands), z, l)|;
    }
    forall y, z | 0 < y < z && IsSea(w, (y, z))
      ensures Kept(sea, (y, z), r, least) <==>
                var c := |Contacts.Meetings(Seas.View(zones), y, z)|; c > 0 && c as real / r >= least
    {
      assert Contacts.Get(sea, (y, z)) == |Contacts.Meetings(Seas.View(zones), y, z)|;
    }
  }

  lemma ContactBehind(w: World, coast: Counts, sea: Counts, r: real, least: real, edges: Table, p: Pair)
    requires r > 0.0 && OnlyContacts(w, coast, sea, r, least, edges) && p in edges
    requires (forall k :: k in coast ==> k.0 > 0) && forall k :: k in sea ==> 0 < k.0 < k.1
    ensures IsContactPair(w, p)
  {
    if k :| IsCoast(w, k) && Kept(coast, k, r, least) && p == CoastPair(w, k) {
      var (z, l) := k;
      assert z > 0 && IsCoast(w, (z, l)) && p == CoastPair(w, (z, l));
    } else {
      var k :| IsSea(w, k) && Kept(sea, k, r, least) && p == SeaPair(w, k);
      var (y, z) := k;
      assert 0 < y < z && IsSea(w, (y, z)) && p == SeaPair(w, (y, z));
    }
  }

  /** A land label that is counted occurs in the raster. */
  lemma TouchedLabel(zones: array2<int>, lands: array2<int>, z: int, l: int)
    requires zones.Length0 == lands.Length0 && zones.Length1 == lands.Length1
    requires |Contacts.Crossings(Seas.View(zones), Seas.View(lands), z, l)| > 0
    ensures exists i, j :: 0 <= i < lands.Length0 && 0 <= j < lands.Length1 && lands[i, j] == l
  {
    var c := Contacts.Crossings(Seas.View(zones), Seas.View(lands), z, l);
    assert c != {};
    var s :| s in c;
    assert lands[s.1.row, s.1.col] == l;
  }
}
