/** The manifest's edge records and its own, independent validation of the graph
    (tools/map_pipeline/manifest.py and tools/map_pipeline/manifest_schema.py). */
module Manifest {
  import opened Optional
  import opened Components
  import Forest
  import opened NodeGraph
  import opened Sorting
  import PathText

  datatype ManifestEdge = ManifestEdge(a: int, b: int, kind: EdgeType, len: Option<real>, name: Option<string>,
                                       multiplier: Option<real>)

  const MIN_NODE_ID := 1001

  /** The nearest thousandth, a tie going to the even one. */
  function Thousandth(x: real): (r: real)
    ensures -0.0005 <= r - x <= 0.0005
  {
    PathText.Round(x * 1000.0) as real / 1000.0
  }

  function Shortened(len: Option<real>): Option<real> {
    match len
    case None => None
    case Some(x) => Some(Thousandth(x))
  }

  /** A strait is written with its name and multiplier, any other edge with its length to three decimals. */
  function Emit(e: Edge): ManifestEdge {
    if e.kind == StraitEdge then ManifestEdge(e.a, e.b, StraitEdge, None, e.name, e.multiplier)
    else ManifestEdge(e.a, e.b, e.kind, Shortened(e.len), None, None)
  }

  /** A strait has no length, any other edge neither name nor multiplier. */
  predicate Plain(e: Edge) {
    if e.kind == StraitEdge then e.len.None? else e.name.None? && e.multiplier.None?
  }

  /** The records tell the edges of a graph apart in all but the manual flag and lengths that agree to three decimals.
      */
  lemma EmitExact(xs: seq<Edge>, ys: seq<Edge>)
    requires forall e :: e in xs || e in ys ==> Plain(e)
    ensures EmitAll(xs) == EmitAll(ys) <==>
              |xs| == |ys| && forall i :: 0 <= i < |xs| ==>
                xs[i] == ys[i].(manual := xs[i].manual, len := xs[i].len) &&
                Shortened(xs[i].len) == Shortened(ys[i].len)
  {
    hide Shortened;
    forall i | 0 <= i < |xs| && |xs| == |ys|
      ensures Emit(xs[i]) == Emit(ys[i]) <==> xs[i] == ys[i].(manual := xs[i].manual, len := xs[i].len) &&
                                              Shortened(xs[i].len) == Shortened(ys[i].len)
    {
      assert xs[i] in xs && ys[i] in ys;
    }
    if EmitAll(xs) == EmitAll(ys) {
      assert |xs| == |EmitAll(xs)| == |ys|;
      assert forall i :: 0 <= i < |xs| ==> EmitAll(xs)[i] == Emit(xs[i]) && EmitAll(ys)[i] == Emit(ys[i]);
    }
  }

  /** The edges of a built graph are plain when the automatic ones are. */
  lemma BuiltPlain(byKey: Nodes, auto: Table, ov: Overrides, p: Pair)
    requires Consistent(byKey, auto, ov) && p in FinalTable(byKey, auto, ov)
    requires forall q :: q in auto ==> Plain(auto[q])
    ensures Plain(FinalTable(byKey, auto, ov)[p])
  {
    hide FinalTable, Consistent, Names, FirstNames;
    OverrideSemantics(byKey, auto, ov, p);
    assert Owed(byKey, auto, ov, p, FinalTable(byKey, auto, ov)[p]);
  }

  function EmitAll(edges: seq<Edge>): seq<ManifestEdge> {
    seq(|edges|, i requires 0 <= i < |edges| => Emit(edges[i]))
  }

  /** A name that is present and not empty. */
  predicate HasName(name: Option<string>) {
    name.Some? && name.value != ""
  }

  predicate PayloadOk(e: ManifestEdge) {
    e.a >= MIN_NODE_ID && e.b >= MIN_NODE_ID &&
    if e.kind == StraitEdge then HasName(e.name) && e.len.None? else e.name.None? && e.multiplier.None?
  }

  function EdgePairs(edges: seq<ManifestEdge>): seq<Pair> {
    seq(|edges|, i requires 0 <= i < |edges| => (edges[i].a, edges[i].b))
  }

  ghost predicate EndsOk(nodes: seq<GraphNode>, e: ManifestEdge) {
    e.a < e.b &&
    exists i, j :: 0 <= i < |nodes| && 0 <= j < |nodes| && nodes[i].id == e.a && nodes[j].id == e.b &&
                   KindsOk(e.kind, nodes[i].kind, nodes[j].kind)
  }

  /** The node list's own rules: ids from the allowed range, ascending and unique, keys unique. */
  ghost predicate NodesOk(nodes: seq<GraphNode>) {
    (forall i :: 0 <= i < |nodes| ==> nodes[i].id >= MIN_NODE_ID) &&
    (forall i, j :: 0 <= i < j < |nodes| ==> nodes[i].id < nodes[j].id) &&
    (forall i, j :: 0 <= i < j < |nodes| ==> nodes[i].key != nodes[j].key)
  }

  /** What the validator demands of nodes and edges, apart from its size and degree limits. */
  ghost predicate ManifestOk(nodes: seq<GraphNode>, edges: seq<ManifestEdge>) {
    NodesOk(nodes) && (forall i :: 0 <= i < |edges| ==> PayloadOk(edges[i]) && EndsOk(nodes, edges[i])) &&
    (forall i, j :: 0 <= i < j < |edges| ==> LexLess((edges[i].a, edges[i].b), (edges[j].a, edges[j].b))) &&
    SingleComponent(Ids(nodes), EdgePairs(edges))
  }

  /** How often an id ends a pair, a pair from an id to itself counting twice. */
  function Degree(pairs: seq<Pair>, id: int): nat {
    if pairs == [] then 0
    else
      var last := pairs[|pairs| - 1];
      Degree(pairs[..|pairs| - 1], id) + (if last.0 == id then 1 else 0) + if last.1 == id then 1 else 0
  }

  datatype Limits = Limits(maxNodes: nat, maxDegree: nat, maxBytes: nat)

  /** Nodes, degrees and size within the limits, and a path for every node and for nothing else. */
  ghost predicate WithinLimits(nodes: seq<GraphNode>, edges: seq<ManifestEdge>, paths: set<int>, bytes: nat,
                               limits: Limits) {
    |nodes| <= limits.maxNodes && bytes <= limits.maxBytes && (forall id :: id in paths <==> id in Ids(nodes)) &&
    forall id :: id in Ids(nodes) ==> Degree(EdgePairs(edges), id) <= limits.maxDegree
  }

  function IntKey(x: int): (int, int) {
    (x, 0)
  }

  function KeysOf(nodes: seq<GraphNode>): seq<string> {
    seq(|nodes|, i requires 0 <= i < |nodes| => nodes[i].key)
  }

  /** The schema's check of the node list. */
  method CheckNodes(nodes: seq<GraphNode>) returns (ok: bool)
    ensures ok <==> NodesOk(nodes)
  {
    var ids := Ids(nodes);
    CountUnique(ids);
    CountUnique(KeysOf(nodes));
    AscendingIds(ids);
    NodesOkParts(nodes);
    ok := (forall i :: 0 <= i < |nodes| ==> nodes[i].id >= MIN_NODE_ID) && ids == SortBy(IntKey, ids) &&
          |Elements(ids)| == |ids| && |Elements(KeysOf(nodes))| == |nodes|;
  }

  lemma AscendingIds(ids: seq<int>)
    ensures Ascending(ids) <==> ids == SortBy(IntKey, ids) && Unique(ids)
  {
    if Ascending(ids) {
      SortIdentity(IntKey, ids);
    }
  }

  lemma NodesOkParts(nodes: seq<GraphNode>)
    ensures NodesOk(nodes) <==> (forall i :: 0 <= i < |nodes| ==> nodes[i].id >= MIN_NODE_ID) &&
                                Ascending(Ids(nodes)) && Unique(KeysOf(nodes))
  {
    var ids, keys := Ids(nodes), KeysOf(nodes);
    assert forall i :: 0 <= i < |nodes| ==> ids[i] == nodes[i].id && keys[i] == nodes[i].key;
    assert Ascending(ids) <==> forall i, j :: 0 <= i < j < |nodes| ==> nodes[i].id < nodes[j].id;
    assert Unique(keys) <==> forall i, j :: 0 <= i < j < |nodes| ==> nodes[i].key != nodes[j].key;
  }

  /** One edge in the validator's loop: its ends must exist, in order, with fitting kinds. */
  method CheckEnds(nodes: seq<GraphNode>, byId: map<int, Kind>, e: ManifestEdge) returns (ok: bool)
    requires DistinctIds(nodes) && byId == ById(nodes)
    ensures ok == EndsOk(nodes, e)
  {
    ByIdExact(nodes);
    ok := e.a < e.b;
    if e.a !in byId || e.b !in byId {
      ok := false;
    } else if !KindsOk(e.kind, byId[e.a], byId[e.b]) {
      ok := false;
    }
  }

  ghost predicate EdgesOk(nodes: seq<GraphNode>, edges: seq<ManifestEdge>, n: nat)
    requires n <= |edges|
  {
    (forall i :: 0 <= i < n ==> EndsOk(nodes, edges[i])) && Unique(EdgePairs(edges[..n]))
  }

  /** The validator's loop over the edges: the problems found and the pairs without problem. */
  method CheckEdges(nodes: seq<GraphNode>, edges: seq<ManifestEdge>)
    returns (errors: nat, pairs: seq<Pair>, degree: map<int, nat>)
    requires DistinctIds(nodes)
    ensures errors == 0 <==> EdgesOk(nodes, edges, |edges|)
    ensures errors == 0 ==> pairs == EdgePairs(edges)
    ensures forall id :: id in degree <==> id in Ids(nodes)
    ensures forall id :: id in degree ==> degree[id] == Degree(pairs, id)
  {
    hide EndsOk, Elements, Unique, EdgePairs, Degree;
    var byId := ById(nodes);
    IdsAreKeys(nodes);
    degree := map id | id in byId :: 0;
    DegreeNone();
    var seen: set<Pair> := {};
    pairs, errors := [], 0;
    NoPairs(edges);
    for i := 0 to |edges|
      invariant seen == Elements(EdgePairs(edges[..i]))
      invariant errors == 0 <==> EdgesOk(nodes, edges, i)
      invariant errors == 0 ==> pairs == EdgePairs(edges[..i])
      invariant degree.Keys == byId.Keys && forall id :: id in degree ==> degree[id] == Degree(pairs, id)
    {
      var e := edges[i];
      var pair := (e.a, e.b);
      PairsStep(edges, i);
      var fits := CheckEnds(nodes, byId, e);
      if !fits || pair in seen {
        errors := errors + 1;
      } else {
        EndsKnown(nodes, e);
        DegreeNext(pairs, pair);
        pairs := pairs + [pair];
        degree := degree[e.a := degree[e.a] + 1];
        degree := degree[e.b := degree[e.b] + 1];
      }
      seen := seen + {pair};
    }
    assert edges[..|edges|] == edges;
  }

  lemma DegreeNone()
    ensures forall id :: Degree([], id) == 0
  {
  }

  lemma DegreeNext(pairs: seq<Pair>, p: Pair)
    ensures forall id :: Degree(pairs + [p], id) == Degree(pairs,
              id) + (if p.0 == id then 1 else 0) + if p.1 == id then 1 else 0
  {
    assert (pairs + [p])[..|pairs|] == pairs;
  }

  lemma IdsAreKeys(nodes: seq<GraphNode>)
    requires DistinctIds(nodes)
    ensures forall id :: id in ById(nodes) <==> id in Ids(nodes)
  {
    ByIdExact(nodes);
    forall id ensures id in Ids(nodes) <==> exists i :: 0 <= i < |nodes| && nodes[i].id == id {
      if i :| 0 <= i < |nodes| && nodes[i].id == id {
        assert Ids(nodes)[i] == id;
      }
    }
  }

  lemma EndsKnown(nodes: seq<GraphNode>, e: ManifestEdge)
    requires EndsOk(nodes, e)
    ensures e.a in Ids(nodes) && e.b in Ids(nodes) && e.a != e.b
  {
    var i, j :| 0 <= i < |nodes| && 0 <= j < |nodes| && nodes[i].id == e.a && nodes[j].id == e.b;
    assert Ids(nodes)[i] == e.a && Ids(nodes)[j] == e.b;
  }

  lemma NoPairs(edges: seq<ManifestEdge>)
    ensures EdgePairs(edges[..0]) == [] && Elements(EdgePairs(edges[..0])) == {} && Unique(EdgePairs(edges[..0]))
  {
  }

  lemma NodesDistinct(nodes: seq<GraphNode>)
    requires NodesOk(nodes)
    ensures DistinctIds(nodes)
  {
  }

  /** The limits and the paths. */
  method CheckLimits(nodes: seq<GraphNode>, ghost edges: seq<ManifestEdge>, degree: map<int, nat>, paths: set<int>,
                     bytes: nat, limits: Limits) returns (ok: bool)
    requires forall id :: id in degree <==> id in Ids(nodes)
    requires forall id :: id in degree ==> degree[id] == Degree(EdgePairs(edges), id)
    ensures ok <==> WithinLimits(nodes, edges, paths, bytes, limits)
  {
    hide Degree, EdgePairs, Ids;
    var ids := set id | id in Ids(nodes);
    assert forall id :: id in ids <==> id in Ids(nodes);
    if forall id :: id in paths <==> id in Ids(nodes) {
      assert paths == ids;
    }
    ok := |nodes| <= limits.maxNodes && bytes <= limits.maxBytes && paths == ids &&
          forall id :: id in degree ==> degree[id] <= limits.maxDegree;
  }

  /** The validator: schema, edge rules with a set of pairs seen, sortedness, limits, connectivity. It accepts exactly
      the manifests that meet the rules and stay within the limits. */
  method ValidateManifest(nodes: seq<GraphNode>, edges: seq<ManifestEdge>, paths: set<int>, bytes: nat, limits: Limits)
    returns (ok: bool)
    ensures ok <==> ManifestOk(nodes, edges) && WithinLimits(nodes, edges, paths, bytes, limits)
  {
    hide SingleComponent, EndsOk, PayloadOk, WithinLimits, EdgePairs, Degree, NodesOk, LexLess;
    var nodesOk := CheckNodes(nodes);
    if !nodesOk || exists i :: 0 <= i < |edges| && !PayloadOk(edges[i]) {
      return false;
    }
    NodesDistinct(nodes);
    var errors, pairs, degree := CheckEdges(nodes, edges);
    assert edges[..|edges|] == edges;
    StrictMeansUnique(edges);
    if errors != 0 {
      return false;
    }
    StrictPairs(edges);
    if pairs != SortBy(PairKey, pairs) {
      return false;
    }
    var kept := CheckLimits(nodes, edges, degree, paths, bytes, limits);
    if !kept {
      return false;
    }
    EndsWithin(nodes, edges);
    var n := CountComponents(Ids(nodes), pairs);
    ok := n == 1;
  }

  lemma PairsStep(edges: seq<ManifestEdge>, i: nat)
    requires i < |edges|
    ensures EdgePairs(edges[..i + 1]) == EdgePairs(edges[..i]) + [(edges[i].a, edges[i].b)]
    ensures Elements(EdgePairs(edges[..i + 1])) == Elements(EdgePairs(edges[..i])) + {(edges[i].a, edges[i].b)}
    ensures Unique(EdgePairs(edges[..i + 1])) <==>
              Unique(EdgePairs(edges[..i])) && (edges[i].a, edges[i].b) !in Elements(EdgePairs(edges[..i]))
  {
    var p, q := EdgePairs(edges[..i]), EdgePairs(edges[..i + 1]);
    assert q == p + [(edges[i].a, edges[i].b)];
    assert forall k :: 0 <= k < |p| ==> q[k] == p[k];
    forall x | x in Elements(p)
      ensures x in Elements(q)
    {
      var k :| 0 <= k < |p| && p[k] == x;
      assert q[k] == x;
    }
    assert q[i] == (edges[i].a, edges[i].b) && q[i] in Elements(q);
    if (edges[i].a, edges[i].b) in Elements(p) {
      var k :| 0 <= k < |p| && p[k] == (edges[i].a, edges[i].b);
      assert q[k] == q[i];
    }
    if Unique(q) {
      assert forall k, l :: 0 <= k < l < |p| ==> q[k] != q[l];
    }
  }

  ghost predicate StrictlyAscending(edges: seq<ManifestEdge>) {
    forall i, j :: 0 <= i < j < |edges| ==> LexLess((edges[i].a, edges[i].b), (edges[j].a, edges[j].b))
  }

  lemma StrictMeansUnique(edges: seq<ManifestEdge>)
    ensures StrictlyAscending(edges) ==> Unique(EdgePairs(edges))
  {
  }

  lemma StrictPairs(edges: seq<ManifestEdge>)
    requires Unique(EdgePairs(edges))
    ensures StrictlyAscending(edges) <==> EdgePairs(edges) == SortBy(PairKey, EdgePairs(edges))
  {
    var p := EdgePairs(edges);
    if StrictlyAscending(edges) {
      SortIdentity(PairKey, p);
    }
    if p == SortBy(PairKey, p) {
      forall i, j | 0 <= i < j < |edges|
        ensures LexLess((edges[i].a, edges[i].b), (edges[j].a, edges[j].b))
      {
        assert LexLeq(PairKey(p[i]), PairKey(p[j])) && p[i] != p[j];
      }
    }
  }

  lemma EndsWithin(nodes: seq<GraphNode>, edges: seq<ManifestEdge>)
    requires forall i :: 0 <= i < |edges| ==> EndsOk(nodes, edges[i])
    ensures Within(Ids(nodes), EdgePairs(edges))
  {
    forall e | e in EdgePairs(edges)
      ensures e.0 in Ids(nodes) && e.1 in Ids(nodes)
    {
      var i :| 0 <= i < |edges| && EdgePairs(edges)[i] == e;
      var k, l :| 0 <= k < |nodes| && 0 <= l < |nodes| && nodes[k].id == edges[i].a && nodes[l].id == edges[i].b;
      assert Ids(nodes)[k] == e.0 && Ids(nodes)[l] == e.1;
    }
  }

  // ------------------------------------------------------- the two checkers

  /** Every strait among the edges has a name. */
  ghost predicate StraitsNamed(edges: seq<Edge>) {
    forall i :: 0 <= i < |edges| && edges[i].kind == StraitEdge ==> HasName(edges[i].name)
  }

  ghost predicate LockedNodes(nodes: seq<GraphNode>) {
    (forall i :: 0 <= i < |nodes| ==> nodes[i].id >= MIN_NODE_ID) &&
    forall i, j :: 0 <= i < j < |nodes| ==> nodes[i].key != nodes[j].key
  }

  /** A graph the builder accepts is accepted by the validator exactly when it has a node and every strait is named:
      the builder lets the empty graph and nameless straits pass, the validator does not, and they agree on all else. */
  lemma CheckersAgree(nodes: seq<GraphNode>, edges: seq<Edge>)
    requires GraphSound(nodes, edges) && LockedNodes(nodes)
    ensures ManifestOk(nodes, EmitAll(edges)) <==> nodes != [] && StraitsNamed(edges)
  {
    hide EndsOk, PayloadOk, EdgeSound, Emit;
    var out := EmitAll(edges);
    assert EdgePairs(out) == PairsOf(edges) by {
      EmitEnds(edges);
    }
    forall i | 0 <= i < |edges|
      ensures EndsOk(nodes, out[i]) && out[i].a == edges[i].a && out[i].b == edges[i].b
      ensures PayloadOk(out[i]) <==> (edges[i].kind == StraitEdge ==> HasName(edges[i].name))
    {
      EdgeAgrees(nodes, edges[i]);
    }
    assert ManifestOk(nodes, out) ==> forall i :: 0 <= i < |edges| ==> PayloadOk(out[i]);
  }

  lemma EmitEnds(edges: seq<Edge>)
    ensures EdgePairs(EmitAll(edges)) == PairsOf(edges)
  {
  }

  lemma EdgeAgrees(nodes: seq<GraphNode>, e: Edge)
    requires LockedNodes(nodes) && EdgeSound(nodes, (e.a, e.b), e)
    ensures EndsOk(nodes, Emit(e)) && Emit(e).a == e.a && Emit(e).b == e.b
    ensures PayloadOk(Emit(e)) <==> (e.kind == StraitEdge ==> HasName(e.name))
  {
  }

  /** An edges_add entry that ends up as a strait: the first for its pair, the pair not already connected, and not
      replaced by a land link. */
  ghost predicate AddsStrait(byKey: Nodes, auto: Table, ov: Overrides, p: Pair) {
    Added(byKey, ov, p) && !(p in auto && !Removed(byKey, ov, p)) && !LandLinked(byKey, ov, p) &&
    ov.adds[First(byKey, AddEnds(ov.adds), |ov.adds|, p)].kind == StraitEdge
  }

  /** When no automatic edge is a strait and every declared strait has a name, all straits of the graph are named
      exactly when edges_add creates none. */
  lemma NamelessStraits(byKey: Nodes, auto: Table, ov: Overrides, edges: seq<Edge>)
    requires Consistent(byKey, auto, ov) && Lists(edges, FinalTable(byKey, auto, ov))
    requires forall p :: p in auto ==> auto[p].kind != StraitEdge
    requires forall i :: 0 <= i < |ov.straits| ==> ov.straits[i].name != ""
    ensures StraitsNamed(edges) <==> forall p :: !AddsStrait(byKey, auto, ov, p)
  {
    hide FinalTable, Consistent, Owed, Named;
    if p :| AddsStrait(byKey, auto, ov, p) {
      AddedNameless(byKey, auto, ov, p);
      var i :| 0 <= i < |edges| && edges[i] == FinalTable(byKey, auto, ov)[p];
      assert !HasName(edges[i].name);
    } else {
      forall i | 0 <= i < |edges| && edges[i].kind == StraitEdge
        ensures HasName(edges[i].name)
      {
        StraitNamed(byKey, auto, ov, (edges[i].a, edges[i].b));
      }
    }
  }

  /** A strait that edges_add creates has no name. */
  lemma AddedNameless(byKey: Nodes, auto: Table, ov: Overrides, p: Pair)
    requires Consistent(byKey, auto, ov) && AddsStrait(byKey, auto, ov, p)
    ensures p in FinalTable(byKey, auto, ov)
    ensures FinalTable(byKey, auto, ov)[p].kind == StraitEdge && FinalTable(byKey, auto, ov)[p].name.None?
  {
    hide FinalTable;
    OverrideSemantics(byKey, auto, ov, p);
    StraitNotAdded(byKey, auto, ov, p);
    assert Owed(byKey, auto, ov, p, FinalTable(byKey, auto, ov)[p]);
  }

  /** Any other strait has the name it was declared with. */
  lemma StraitNamed(byKey: Nodes, auto: Table, ov: Overrides, p: Pair)
    requires Consistent(byKey, auto, ov) && !AddsStrait(byKey, auto, ov, p) && p in FinalTable(byKey, auto, ov)
    requires forall q :: q in auto ==> auto[q].kind != StraitEdge
    requires forall i :: 0 <= i < |ov.straits| ==> ov.straits[i].name != ""
    ensures FinalTable(byKey, auto, ov)[p].kind == StraitEdge ==> HasName(FinalTable(byKey, auto, ov)[p].name)
  {
    hide FinalTable, Consistent, Named;
    OverrideSemantics(byKey, auto, ov, p);
    assert Owed(byKey, auto, ov, p, FinalTable(byKey, auto, ov)[p]);
  }

  lemma StraitNotAdded(byKey: Nodes, auto: Table, ov: Overrides, p: Pair)
    requires Consistent(byKey, auto, ov) && Added(byKey, ov, p)
    ensures !Straited(byKey, ov, p)
  {
  }

  /** End to end: a built graph with at least one node makes an acceptable manifest exactly when edges_add creates no
      strait. */
  lemma BuiltGraphValidates(byKey: Nodes, auto: Table, ov: Overrides, nodes: seq<GraphNode>, edges: seq<Edge>)
    requires Consistent(byKey, auto, ov) && Lists(edges, FinalTable(byKey, auto, ov))
    requires GraphSound(nodes, edges) && LockedNodes(nodes) && nodes != []
    requires forall p :: p in auto ==> auto[p].kind != StraitEdge
    requires forall i :: 0 <= i < |ov.straits| ==> ov.straits[i].name != ""
    ensures ManifestOk(nodes, EmitAll(edges)) <==> forall p :: !AddsStrait(byKey, auto, ov, p)
  {
    CheckersAgree(nodes, edges);
    NamelessStraits(byKey, auto, ov, edges);
  }

  /** The graph without nodes is sound, yet its manifest is rejected. */
  lemma EmptyGraphRejected()
    ensures GraphSound([], []) && StraitsNamed([]) && !ManifestOk([], EmitAll([]))
  {
    CheckersAgree([], []);
  }

  const NAMELESS := Overrides([], [EdgeAdd(Ends("x", "y"), StraitEdge)], [], [])
  const X := GraphNode(1001, "x", LAND)
  const Y := GraphNode(1002, "y", LAND)

  /** A concrete input: one edges_add strait between two land nodes is consistent and becomes the table. */
  lemma NamelessStraitTable()
    ensures Consistent(map["x" := X, "y" := Y], map[], NAMELESS)
    ensures FinalTable(map["x" := X, "y" := Y], map[], NAMELESS) == map[(1001, 1002) := AddEdge((1001, 1002),
              StraitEdge)]
  {
    var byKey, p := map["x" := X, "y" := Y], (1001, 1002);
    var ends := AddEnds(NAMELESS.adds);
    assert ends == [Ends("x", "y")] && Known(byKey, ends[0]) && PairOf(byKey, ends[0]) == p;
    NamedStep(byKey, ends, 0);
    assert Named(byKey, ends, 1) == {p};
    assert Table2(byKey, map[], NAMELESS) == map[p := AddEdge(p, StraitEdge)];
  }

  /** The graph of that table is sound, yet the validator rejects its manifest. */
  lemma NamelessStraitRejected()
    ensures GraphSound([X, Y], [AddEdge((1001, 1002), StraitEdge)])
    ensures !ManifestOk([X, Y], EmitAll([AddEdge((1001, 1002), StraitEdge)]))
  {
    var nodes, p, edges := [X, Y], (1001, 1002), [AddEdge((1001, 1002), StraitEdge)];
    assert PairsOf(edges) == [p] && Ids(nodes) == [1001, 1002];
    Forest.JoinedSelf([p], 1001);
    Forest.JoinedSelf([p], 1002);
    Forest.JoinedEdge([p], 1001, 1002);
    Forest.JoinedSym([p], 1001, 1002);
    assert EdgeSound(nodes, p, edges[0]) by {
      assert nodes[0].id == p.0 && nodes[1].id == p.1;
    }
    assert !PayloadOk(EmitAll(edges)[0]);
  }
}
