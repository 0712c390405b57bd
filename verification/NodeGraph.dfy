/** The node graph: manual overrides applied in order to the automatic edges, and the graph's own invariant check
    (tools/map_pipeline/graph.py). Names, areas and geometry of nodes play no part here and are not carried. */
module NodeGraph {
  import opened Optional
  import opened Components
  import opened Sorting
  import Forest

  datatype Kind = LAND | SEA
  datatype EdgeType = LandEdge | CoastEdge | SeaEdge | StraitEdge
  type Pair = (int, int)

  datatype GraphNode = GraphNode(id: int, key: string, kind: Kind)

  datatype Edge = Edge(a: int, b: int, kind: EdgeType, len: Option<real>, name: Option<string>,
                       multiplier: Option<real>, manual: bool)

  /** The kinds an edge type may join. */
  predicate KindsOk(t: EdgeType, a: Kind, b: Kind) {
    match t
    case LandEdge => a == LAND && b == LAND
    case CoastEdge => a != b
    case SeaEdge => a == SEA && b == SEA
    case StraitEdge => a == LAND && b == LAND
  }

  // --------------------------------------------------------------- overrides

  datatype Ends = Ends(a: string, b: string)
  datatype EdgeAdd = EdgeAdd(ends: Ends, kind: EdgeType)
  datatype Strait = Strait(ends: Ends, name: string, multiplier: Option<real>)

  datatype Overrides = Overrides(removes: seq<Ends>, adds: seq<EdgeAdd>, straits: seq<Strait>, links: seq<Ends>)

  type Nodes = map<string, GraphNode>
  type Table = map<Pair, Edge>

  predicate Known(byKey: Nodes, e: Ends) {
    e.a in byKey && e.b in byKey
  }

  function PairOf(byKey: Nodes, e: Ends): Pair
    requires Known(byKey, e)
  {
    var a, b := byKey[e.a].id, byKey[e.b].id;
    if a <= b then (a, b) else (b, a)
  }

  predicate BothLand(byKey: Nodes, e: Ends)
    requires Known(byKey, e)
  {
    byKey[e.a].kind == LAND && byKey[e.b].kind == LAND
  }

  function AddEdge(p: Pair, t: EdgeType): Edge {
    Edge(p.0, p.1, t, None, None, None, true)
  }

  function StraitOf(p: Pair, s: Strait): Edge {
    Edge(p.0, p.1, StraitEdge, None, Some(s.name), s.multiplier, false)
  }

  function AddEnds(adds: seq<EdgeAdd>): seq<Ends> {
    seq(|adds|, i requires 0 <= i < |adds| => adds[i].ends)
  }

  function StraitEnds(straits: seq<Strait>): seq<Ends> {
    seq(|straits|, i requires 0 <= i < |straits| => straits[i].ends)
  }

  /** The pairs named by the first n entries of a list. */
  ghost function Named(byKey: Nodes, list: seq<Ends>, n: nat): set<Pair>
    requires n <= |list|
  {
    set i | 0 <= i < n && Known(byKey, list[i]) :: PairOf(byKey, list[i])
  }

  ghost predicate Names(byKey: Nodes, list: seq<Ends>, i: nat, p: Pair) {
    i < |list| && Known(byKey, list[i]) && PairOf(byKey, list[i]) == p
  }

  /** The first entry naming p. */
  ghost function First(byKey: Nodes, list: seq<Ends>, n: nat, p: Pair): (i: nat)
    requires n <= |list| && p in Named(byKey, list, n)
    ensures i < n && Names(byKey, list, i, p)
    ensures forall j :: 0 <= j < i ==> !Names(byKey, list, j, p)
  {
    if p in Named(byKey, list, n - 1) then First(byKey, list, n - 1, p) else n - 1
  }

  /** Entry i names a pair no earlier entry names. */
  ghost predicate NewPair(byKey: Nodes, list: seq<Ends>, i: nat)
    requires i < |list| && Known(byKey, list[i])
  {
    forall j :: 0 <= j < i ==> !Names(byKey, list, j, PairOf(byKey, list[i]))
  }

  // ------------------------------------------------ what the overrides mean

  ghost predicate RemovesOk(byKey: Nodes, auto: Table, list: seq<Ends>, n: nat)
    requires n <= |list|
  {
    forall i :: 0 <= i < n ==> Known(byKey, list[i]) && PairOf(byKey, list[i]) in auto && NewPair(byKey, list, i)
  }

  ghost function AfterRemoves(byKey: Nodes, auto: Table, list: seq<Ends>, n: nat): Table
    requires n <= |list|
  {
    auto - Named(byKey, list, n)
  }

  ghost predicate AddsOk(byKey: Nodes, adds: seq<EdgeAdd>, n: nat)
    requires n <= |adds|
  {
    forall i :: 0 <= i < n ==>
      Known(byKey, adds[i].ends) && KindsOk(adds[i].kind, byKey[adds[i].ends.a].kind, byKey[adds[i].ends.b].kind)
  }

  /** A pair already present is kept; of several entries for a new pair the first counts. */
  ghost function AfterAdds(byKey: Nodes, t: Table, adds: seq<EdgeAdd>, n: nat): Table
    requires n <= |adds|
  {
    map p | p in t.Keys + Named(byKey, AddEnds(adds), n) ::
      if p in t then t[p] else AddEdge(p, adds[First(byKey, AddEnds(adds), n, p)].kind)
  }

  ghost predicate StraitsOk(byKey: Nodes, t: Table, straits: seq<Strait>, n: nat)
    requires n <= |straits|
  {
    forall i :: 0 <= i < n ==>
      Known(byKey, straits[i].ends) && BothLand(byKey, straits[i].ends) &&
      PairOf(byKey, straits[i].ends) !in t && NewPair(byKey, StraitEnds(straits), i)
  }

  ghost function AfterStraits(byKey: Nodes, t: Table, straits: seq<Strait>, n: nat): Table
    requires n <= |straits|
  {
    map p | p in t.Keys + Named(byKey, StraitEnds(straits), n) ::
      if p in t then t[p] else StraitOf(p, straits[First(byKey, StraitEnds(straits), n, p)])
  }

  ghost predicate LinksOk(byKey: Nodes, t: Table, links: seq<Ends>, n: nat)
    requires n <= |links|
  {
    forall i :: 0 <= i < n ==>
      Known(byKey, links[i]) && BothLand(byKey, links[i]) && NewPair(byKey, links, i) &&
      (PairOf(byKey, links[i]) in t ==> t[PairOf(byKey, links[i])].kind == StraitEdge)
  }

  ghost function AfterLinks(byKey: Nodes, t: Table, links: seq<Ends>, n: nat): Table
    requires n <= |links|
  {
    map p | p in t.Keys + Named(byKey, links, n) ::
      if p in Named(byKey, links, n) then AddEdge(p, LandEdge) else t[p]
  }

  ghost function Table1(byKey: Nodes, auto: Table, ov: Overrides): Table {
    AfterRemoves(byKey, auto, ov.removes, |ov.removes|)
  }

  ghost function Table2(byKey: Nodes, auto: Table, ov: Overrides): Table {
    AfterAdds(byKey, Table1(byKey, auto, ov), ov.adds, |ov.adds|)
  }

  ghost function Table3(byKey: Nodes, auto: Table, ov: Overrides): Table {
    AfterStraits(byKey, Table2(byKey, auto, ov), ov.straits, |ov.straits|)
  }

  /** The edge table the overrides ask for. */
  ghost function FinalTable(byKey: Nodes, auto: Table, ov: Overrides): Table {
    AfterLinks(byKey, Table3(byKey, auto, ov), ov.links, |ov.links|)
  }

  /** The overrides fit the automatic edges and each other. */
  ghost predicate Consistent(byKey: Nodes, auto: Table, ov: Overrides) {
    RemovesOk(byKey, auto, ov.removes, |ov.removes|) && AddsOk(byKey, ov.adds, |ov.adds|) &&
    StraitsOk(byKey, Table2(byKey, auto, ov), ov.straits, |ov.straits|) &&
    LinksOk(byKey, Table3(byKey, auto, ov), ov.links, |ov.links|)
  }

  lemma NamedStep(byKey: Nodes, list: seq<Ends>, n: nat)
    requires n < |list|
    ensures Named(byKey, list, n + 1) ==
              Named(byKey, list, n) + if Known(byKey, list[n]) then {PairOf(byKey, list[n])} else {}
    ensures Known(byKey, list[n]) ==> (NewPair(byKey, list, n) <==> PairOf(byKey, list[n]) !in Named(byKey, list, n))
  {
    if Known(byKey, list[n]) {
      NamedHow(byKey, list, n, PairOf(byKey, list[n]));
    }
  }

  lemma NamedHow(byKey: Nodes, list: seq<Ends>, n: nat, p: Pair)
    requires n <= |list|
    ensures p in Named(byKey, list, n) <==> exists i :: 0 <= i < n && Names(byKey, list, i, p)
  {
    if p in Named(byKey, list, n) {
      assert Names(byKey, list, First(byKey, list, n, p), p);
    }
  }

  // ----------------------------------------------------- which entries are refused

  ghost predicate RemoveBad(byKey: Nodes, auto: Table, list: seq<Ends>, i: nat)
    requires i < |list|
  {
    !(Known(byKey, list[i]) && PairOf(byKey, list[i]) in auto && NewPair(byKey, list, i))
  }

  ghost predicate AddBad(byKey: Nodes, adds: seq<EdgeAdd>, i: nat)
    requires i < |adds|
  {
    var e := adds[i];
    !(Known(byKey, e.ends) && KindsOk(e.kind, byKey[e.ends.a].kind, byKey[e.ends.b].kind))
  }

  /** Entry j of a list of land pairs names p and its ends are land. */
  ghost predicate LandNames(byKey: Nodes, list: seq<Ends>, j: nat, p: Pair) {
    Names(byKey, list, j, p) && BothLand(byKey, list[j])
  }

  ghost predicate LandNamed(byKey: Nodes, list: seq<Ends>, i: nat, p: Pair) {
    exists j :: 0 <= j < i && LandNames(byKey, list, j, p)
  }

  ghost predicate StraitBad(byKey: Nodes, t: Table, straits: seq<Strait>, i: nat)
    requires i < |straits|
  {
    var e := straits[i].ends;
    !(Known(byKey, e) && BothLand(byKey, e) && PairOf(byKey, e) !in t &&
      !LandNamed(byKey, StraitEnds(straits), i, PairOf(byKey, e)))
  }

  ghost predicate LinkBad(byKey: Nodes, t: Table, links: seq<Ends>, i: nat)
    requires i < |links|
  {
    var e := links[i];
    !(Known(byKey, e) && BothLand(byKey, e) && !Fixed(t, PairOf(byKey, e)) &&
      !LandNamed(byKey, links, i, PairOf(byKey, e)))
  }

  /** An edge a land link may not replace. */
  predicate Fixed(t: Table, p: Pair) {
    p in t && t[p].kind != StraitEdge
  }

  /** The listed entries, in order, are the first n that are bad. */
  ghost predicate Reports(errors: seq<nat>, n: nat, bad: nat -> bool) {
    (forall i, j :: 0 <= i < j < |errors| ==> errors[i] < errors[j]) && forall i: nat :: i in errors <==>
      i < n && bad(i)
  }

  // --------------------------------------------------------------- the table

  /** The entries in error, by section. */
  datatype Problems = Problems(removes: seq<nat>, adds: seq<nat>, straits: seq<nat>, links: seq<nat>)

  predicate NoProblem(p: Problems) {
    p.removes == [] && p.adds == [] && p.straits == [] && p.links == []
  }

  /** The edge dictionary, changed in place. */
  class EdgeTable {
    var edges: Table

    constructor (edges: Table)
      ensures this.edges == edges
    {
      this.edges := edges;
    }

    method ApplyRemoves(byKey: Nodes, list: seq<Ends>) returns (errors: seq<nat>)
      modifies this
      ensures Reports(errors, |list|, i => 0 <= i < |list| && RemoveBad(byKey, old(edges), list, i))
      ensures errors == [] <==> RemovesOk(byKey, old(edges), list, |list|)
      ensures edges == AfterRemoves(byKey, old(edges), list, |list|)
    {
      errors := [];
      for i := 0 to |list|
        invariant forall k: nat :: k in errors <==> k < i && RemoveBad(byKey, old(edges), list, k)
        invariant forall k :: 0 <= k < |errors| ==> errors[k] < i && forall l :: 0 <= l < k ==> errors[l] < errors[k]
        invariant edges == AfterRemoves(byKey, old(edges), list, i)
      {
        NamedStep(byKey, list, i);
        if !Known(byKey, list[i]) {
          errors := errors + [i];
          continue;
        }
        var pair := PairOf(byKey, list[i]);
        if pair !in edges {
          errors := errors + [i];
          continue;
        }
        edges := edges - {pair};
      }
      NoneReported(errors);
      RemovesOkExact(byKey, old(edges), list);
    }

    method ApplyAdds(byKey: Nodes, adds: seq<EdgeAdd>) returns (errors: seq<nat>)
      modifies this
      ensures Reports(errors, |adds|, i => 0 <= i < |adds| && AddBad(byKey, adds, i))
      ensures errors == [] <==> AddsOk(byKey, adds, |adds|)
      ensures errors == [] ==> edges == AfterAdds(byKey, old(edges), adds, |adds|)
    {
      hide AfterAdds, KindsOk;
      errors := [];
      NothingAdded(byKey, edges, adds);
      for i := 0 to |adds|
        invariant forall k: nat :: k in errors <==> k < i && AddBad(byKey, adds, k)
        invariant forall k :: 0 <= k < |errors| ==> errors[k] < i && forall l :: 0 <= l < k ==> errors[l] < errors[k]
        invariant errors == [] ==> edges == AfterAdds(byKey, old(edges), adds, i)
      {
        var e := adds[i];
        if !Known(byKey, e.ends) || !KindsOk(e.kind, byKey[e.ends.a].kind, byKey[e.ends.b].kind) {
          errors := errors + [i];
          continue;
        }
        AddStep(byKey, old(edges), adds, i);
        var pair := PairOf(byKey, e.ends);
        if pair !in edges {
          edges := edges[pair := AddEdge(pair, e.kind)];
        }
      }
      NoneReported(errors);
      AddsOkExact(byKey, adds);
    }

    method ApplyStraits(byKey: Nodes, straits: seq<Strait>) returns (errors: seq<nat>)
      modifies this
      ensures Reports(errors, |straits|, i => 0 <= i < |straits| && StraitBad(byKey, old(edges), straits, i))
      ensures errors == [] <==> StraitsOk(byKey, old(edges), straits, |straits|)
      ensures errors == [] ==> edges == AfterStraits(byKey, old(edges), straits, |straits|)
    {
      hide AfterStraits, LandNames;
      errors := [];
      NothingStraited(byKey, edges, straits);
      for i := 0 to |straits|
        invariant forall k: nat :: k in errors <==> k < i && StraitBad(byKey, old(edges), straits, k)
        invariant forall k :: 0 <= k < |errors| ==> errors[k] < i && forall l :: 0 <= l < k ==> errors[l] < errors[k]
        invariant forall p :: p in edges <==> p in old(edges) || LandNamed(byKey, StraitEnds(straits), i, p)
        invariant errors == [] ==> edges == AfterStraits(byKey, old(edges), straits, i)
      {
        var s := straits[i];
        LandNamedStep(byKey, StraitEnds(straits), i);
        if !Known(byKey, s.ends) || !BothLand(byKey, s.ends) {
          errors := errors + [i];
          continue;
        }
        StraitStep(byKey, old(edges), straits, i);
        var pair := PairOf(byKey, s.ends);
        if pair in edges {
          errors := errors + [i];
          continue;
        }
        edges := edges[pair := StraitOf(pair, s)];
      }
      NoneReported(errors);
      StraitsOkExact(byKey, old(edges), straits);
    }

    method ApplyLinks(byKey: Nodes, links: seq<Ends>) returns (errors: seq<nat>)
      modifies this
      ensures Reports(errors, |links|, i => 0 <= i < |links| && LinkBad(byKey, old(edges), links, i))
      ensures errors == [] <==> LinksOk(byKey, old(edges), links, |links|)
      ensures errors == [] ==> edges == AfterLinks(byKey, old(edges), links, |links|)
    {
      hide AfterLinks, LandNames;
      errors := [];
      NothingLinked(byKey, edges, links);
      for i := 0 to |links|
        invariant forall k: nat :: k in errors <==> k < i && LinkBad(byKey, old(edges), links, k)
        invariant forall k :: 0 <= k < |errors| ==> errors[k] < i && forall l :: 0 <= l < k ==> errors[l] < errors[k]
        invariant forall p :: Fixed(edges, p) <==> Fixed(old(edges), p) || LandNamed(byKey, links, i, p)
        invariant errors == [] ==> edges == AfterLinks(byKey, old(edges), links, i)
      {
        LandNamedStep(byKey, links, i);
        if !Known(byKey, links[i]) || !BothLand(byKey, links[i]) {
          errors := errors + [i];
          continue;
        }
        LinkStep(byKey, old(edges), links, i);
        var pair := PairOf(byKey, links[i]);
        assert forall p :: LandNames(byKey, links, i, p) <==> p == pair;
        if pair in edges && edges[pair].kind != StraitEdge {
          assert Fixed(edges, pair);
          errors := errors + [i];
          continue;
        }
        ghost var before := edges;
        edges := edges[pair := AddEdge(pair, LandEdge)];
        assert forall p :: Fixed(edges, p) <==> Fixed(before, p) || p == pair;
      }
      NoneReported(errors);
      LinksOkExact(byKey, old(edges), links);
    }

    /** Removals, additions, straits and land links, in that order. There is no error exactly when the overrides are
        consistent, and then the table is the declared one. Each section reports exactly its own bad entries, as long as
        the sections it builds on were in order. */
    method Apply(byKey: Nodes, ov: Overrides) returns (errors: Problems)
      modifies this
      ensures NoProblem(errors) <==> Consistent(byKey, old(edges), ov)
      ensures NoProblem(errors) ==> edges == FinalTable(byKey, old(edges), ov)
      ensures Reports(errors.removes, |ov.removes|, i => 0 <= i < |ov.removes| &&
                RemoveBad(byKey, old(edges), ov.removes, i))
      ensures Reports(errors.adds, |ov.adds|, i => 0 <= i < |ov.adds| && AddBad(byKey, ov.adds, i))
      ensures errors.adds == [] ==>
                var t := Table2(byKey, old(edges), ov);
                Reports(errors.straits, |ov.straits|, i => 0 <= i < |ov.straits| && StraitBad(byKey, t, ov.straits, i))
      ensures errors.adds == [] && errors.straits == [] ==>
                var t := Table3(byKey, old(edges), ov);
                Reports(errors.links, |ov.links|, i => 0 <= i < |ov.links| && LinkBad(byKey, t, ov.links, i))
    {
      hide Reports, AfterRemoves, AfterAdds, AfterStraits, AfterLinks;
      var removes := ApplyRemoves(byKey, ov.removes);
      var adds := ApplyAdds(byKey, ov.adds);
      var straits := ApplyStraits(byKey, ov.straits);
      var links := ApplyLinks(byKey, ov.links);
      errors := Problems(removes, adds, straits, links);
    }
  }

  lemma NoneReported(errors: seq<nat>)
    ensures errors == [] <==> forall i: nat :: i !in errors
  {
    if errors != [] {
      assert errors[0] in errors;
    }
  }

  lemma LandNamedStep(byKey: Nodes, list: seq<Ends>, i: nat)
    requires i < |list|
    ensures forall p :: LandNamed(byKey, list, i + 1, p) <==>
              LandNamed(byKey, list, i, p) || LandNames(byKey, list, i, p)
    ensures forall p :: LandNames(byKey, list, i, p) <==>
              Known(byKey, list[i]) && BothLand(byKey, list[i]) && PairOf(byKey, list[i]) == p
  {
  }

  lemma RemovesOkExact(byKey: Nodes, auto: Table, list: seq<Ends>)
    ensures RemovesOk(byKey, auto, list, |list|) <==> forall i: nat :: i < |list| ==> !RemoveBad(byKey, auto, list, i)
  {
    if forall i: nat :: i < |list| ==> !RemoveBad(byKey, auto, list, i) {
      forall i: nat | i < |list|
        ensures Known(byKey, list[i]) && PairOf(byKey, list[i]) in auto && NewPair(byKey, list, i)
      {
        assert !RemoveBad(byKey, auto, list, i);
      }
    }
  }

  lemma AddsOkExact(byKey: Nodes, adds: seq<EdgeAdd>)
    ensures AddsOk(byKey, adds, |adds|) <==> forall i: nat :: i < |adds| ==> !AddBad(byKey, adds, i)
  {
    hide KindsOk;
    if forall i: nat :: i < |adds| ==> !AddBad(byKey, adds, i) {
      forall i: nat | i < |adds|
        ensures Known(byKey, adds[i].ends) &&
                  KindsOk(adds[i].kind, byKey[adds[i].ends.a].kind, byKey[adds[i].ends.b].kind)
      {
        assert !AddBad(byKey, adds, i);
      }
    }
  }

  lemma StraitsOkExact(byKey: Nodes, t: Table, straits: seq<Strait>)
    ensures StraitsOk(byKey, t, straits, |straits|) <==> forall i: nat :: i < |straits| ==>
              !StraitBad(byKey, t, straits, i)
  {
    var ends := StraitEnds(straits);
    if StraitsOk(byKey, t, straits, |straits|) {
      forall i: nat | i < |straits| ensures !StraitBad(byKey, t, straits, i) {
        assert ends[i] == straits[i].ends && NewPair(byKey, ends, i);
      }
    }
    if forall i: nat :: i < |straits| ==> !StraitBad(byKey, t, straits, i) {
      forall i: nat | i < |straits|
        ensures Known(byKey, straits[i].ends) && BothLand(byKey, straits[i].ends)
        ensures PairOf(byKey, straits[i].ends) !in t && NewPair(byKey, ends, i)
      {
        assert ends[i] == straits[i].ends;
        assert !StraitBad(byKey, t, straits, i);
        forall j | 0 <= j < i ensures !Names(byKey, ends, j, PairOf(byKey, ends[i])) {
          assert !StraitBad(byKey, t, straits, j);
          assert !LandNames(byKey, ends, j, PairOf(byKey, ends[i]));
        }
      }
    }
  }

  lemma LinksOkExact(byKey: Nodes, t: Table, links: seq<Ends>)
    ensures LinksOk(byKey, t, links, |links|) <==> forall i: nat :: i < |links| ==> !LinkBad(byKey, t, links, i)
  {
    if forall i: nat :: i < |links| ==> !LinkBad(byKey, t, links, i) {
      forall i: nat | i < |links|
        ensures Known(byKey, links[i]) && BothLand(byKey, links[i]) && NewPair(byKey, links, i)
        ensures PairOf(byKey, links[i]) in t ==> t[PairOf(byKey, links[i])].kind == StraitEdge
      {
        assert !LinkBad(byKey, t, links, i);
        forall j | 0 <= j < i ensures !Names(byKey, links, j, PairOf(byKey, links[i])) {
          assert !LinkBad(byKey, t, links, j);
          assert !LandNames(byKey, links, j, PairOf(byKey, links[i]));
        }
      }
    }
  }

  lemma NothingStraited(byKey: Nodes, t: Table, straits: seq<Strait>)
    ensures AfterStraits(byKey, t, straits, 0) == t
  {
  }

  lemma NothingLinked(byKey: Nodes, t: Table, links: seq<Ends>)
    ensures AfterLinks(byKey, t, links, 0) == t
  {
  }

  lemma LinkStep(byKey: Nodes, t: Table, links: seq<Ends>, n: nat)
    requires n < |links| && Known(byKey, links[n])
    ensures var p := PairOf(byKey, links[n]);
            AfterLinks(byKey, t, links, n + 1) == AfterLinks(byKey, t, links, n)[p := AddEdge(p, LandEdge)]
  {
    NamedStep(byKey, links, n);
  }

  lemma NothingAdded(byKey: Nodes, t: Table, adds: seq<EdgeAdd>)
    ensures AfterAdds(byKey, t, adds, 0) == t
  {
  }

  lemma AddStep(byKey: Nodes, t: Table, adds: seq<EdgeAdd>, n: nat)
    requires n < |adds| && Known(byKey, adds[n].ends)
    ensures var p := PairOf(byKey, adds[n].ends); var now := AfterAdds(byKey, t, adds, n);
            AfterAdds(byKey, t, adds, n + 1) == if p in now then now else now[p := AddEdge(p, adds[n].kind)]
  {
    NamedStep(byKey, AddEnds(adds), n);
  }

  lemma StraitStep(byKey: Nodes, t: Table, straits: seq<Strait>, n: nat)
    requires n < |straits| && Known(byKey, straits[n].ends)
    ensures var p := PairOf(byKey, straits[n].ends); var now := AfterStraits(byKey, t, straits, n);
            p !in now ==> AfterStraits(byKey, t, straits, n + 1) == now[p := StraitOf(p, straits[n])]
  {
    NamedStep(byKey, StraitEnds(straits), n);
  }

  ghost predicate Removed(byKey: Nodes, ov: Overrides, p: Pair) {
    p in Named(byKey, ov.removes, |ov.removes|)
  }

  ghost predicate Added(byKey: Nodes, ov: Overrides, p: Pair) {
    p in Named(byKey, AddEnds(ov.adds), |ov.adds|)
  }

  ghost predicate Straited(byKey: Nodes, ov: Overrides, p: Pair) {
    p in Named(byKey, StraitEnds(ov.straits), |ov.straits|)
  }

  ghost predicate LandLinked(byKey: Nodes, ov: Overrides, p: Pair) {
    p in Named(byKey, ov.links, |ov.links|)
  }

  /** The edge the overrides ask for where there is to be one, every field of it: a link's, else a strait's, else the
      automatic one, else that of the first entry that adds it. Links and added edges are manual, straits are not and
      carry their name and multiplier. */
  ghost predicate Owed(byKey: Nodes, auto: Table, ov: Overrides, p: Pair, e: Edge) {
    if LandLinked(byKey, ov, p) then e == Edge(p.0, p.1, LandEdge, None, None, None, true)
    else if Straited(byKey, ov, p) then
      exists i: nat :: Names(byKey, StraitEnds(ov.straits), i, p) && e ==
        Edge(p.0, p.1, StraitEdge, None, Some(ov.straits[i].name), ov.straits[i].multiplier, false)
    else if p in auto && !Removed(byKey, ov, p) then e == auto[p]
    else
      exists i: nat :: FirstNames(byKey, AddEnds(ov.adds), i, p) &&
                       e == Edge(p.0, p.1, ov.adds[i].kind, None, None, None, true)
  }

  ghost predicate FirstNames(byKey: Nodes, list: seq<Ends>, i: nat, p: Pair) {
    Names(byKey, list, i, p) && forall j: nat :: j < i ==> !Names(byKey, list, j, p)
  }

  /** The order of the phases spelled out: which pairs have an edge in the end, and which edge. */
  lemma OverrideSemantics(byKey: Nodes, auto: Table, ov: Overrides, p: Pair)
    requires Consistent(byKey, auto, ov)
    ensures p in FinalTable(byKey, auto, ov) <==>
              (p in auto && !Removed(byKey, ov, p)) || Added(byKey, ov, p) || Straited(byKey, ov, p) ||
                LandLinked(byKey, ov, p)
    ensures p in FinalTable(byKey, auto, ov) ==>
              forall e :: Owed(byKey, auto, ov, p, e) <==> e == FinalTable(byKey, auto, ov)[p]
  {
    hide Consistent, Names, Named;
    if p in FinalTable(byKey, auto, ov) {
      if Straited(byKey, ov, p) {
        StraitedOnce(byKey, auto, ov, p);
        var i := First(byKey, StraitEnds(ov.straits), |ov.straits|, p);
        assert Names(byKey, StraitEnds(ov.straits), i, p);
      } else if !LandLinked(byKey, ov, p) && (p !in auto || Removed(byKey, ov, p)) {
        var i := First(byKey, AddEnds(ov.adds), |ov.adds|, p);
        assert FirstNames(byKey, AddEnds(ov.adds), i, p);
      }
    }
  }

  /** A pair is named by one strait, and no earlier phase leaves it an edge. */
  lemma StraitedOnce(byKey: Nodes, auto: Table, ov: Overrides, p: Pair)
    requires Consistent(byKey, auto, ov) && Straited(byKey, ov, p)
    ensures p !in Table2(byKey, auto, ov)
    ensures forall i: nat :: Names(byKey, StraitEnds(ov.straits), i, p) ==>
                               i == First(byKey, StraitEnds(ov.straits), |ov.straits|, p)
  {
    var ends := StraitEnds(ov.straits);
    NamedHow(byKey, ends, |ov.straits|, p);
    var k := First(byKey, ends, |ov.straits|, p);
    assert Names(byKey, ends, k, p) && PairOf(byKey, ov.straits[k].ends) == p;
    forall i: nat | Names(byKey, ends, i, p) ensures i == k {
      assert NewPair(byKey, ends, i);
    }
  }

  lemma RealPairAt(byKey: Nodes, auto: Table, ov: Overrides, p: Pair)
    requires Consistent(byKey, auto, ov)
    ensures p in RealPairs(FinalTable(byKey, auto, ov)) <==> p in RealPairs(auto) && !Removed(byKey, ov, p)
  {
    hide FinalTable, Consistent, Names, FirstNames;
    OverrideSemantics(byKey, auto, ov, p);
    if p in FinalTable(byKey, auto, ov) {
      var e := FinalTable(byKey, auto, ov)[p];
      assert Owed(byKey, auto, ov, p, e);
    }
    if LandLinked(byKey, ov, p) {
      LinkedOverStrait(byKey, auto, ov, p);
    }
    if Straited(byKey, ov, p) {
      StraitedOnce(byKey, auto, ov, p);
    }
  }

  /** The edges that are to hold the graph together without straits and manual ones are the automatic edges not removed:
      what overrides add never counts. */
  lemma RealPairsAre(byKey: Nodes, auto: Table, ov: Overrides)
    requires Consistent(byKey, auto, ov)
    ensures RealPairs(FinalTable(byKey, auto, ov)) == RealPairs(auto) - Named(byKey, ov.removes, |ov.removes|)
  {
    hide FinalTable, Consistent, RealPairs, Named;
    forall p ensures p in RealPairs(FinalTable(byKey, auto, ov)) <==> p in RealPairs(auto) && !Removed(byKey, ov, p) {
      RealPairAt(byKey, auto, ov, p);
    }
  }

  lemma LinkedOverStrait(byKey: Nodes, auto: Table, ov: Overrides, p: Pair)
    requires Consistent(byKey, auto, ov) && LandLinked(byKey, ov, p)
    ensures p in auto && !Removed(byKey, ov, p) ==> auto[p].kind == StraitEdge
  {
    NamedHow(byKey, ov.links, |ov.links|, p);
    var i :| 0 <= i < |ov.links| && Names(byKey, ov.links, i, p);
    assert PairOf(byKey, ov.links[i]) == p;
  }

  // -------------------------------------------------------------- invariants

  /** INV-M2 for one edge. */
  ghost predicate EdgeSound(nodes: seq<GraphNode>, p: Pair, e: Edge) {
    p.0 != p.1 && e.a < e.b && (e.a, e.b) == p &&
    exists i, j :: 0 <= i < |nodes| && 0 <= j < |nodes| && nodes[i].id == p.0 && nodes[j].id == p.1 &&
                   KindsOk(e.kind, nodes[i].kind, nodes[j].kind)
  }

  ghost predicate DistinctIds(nodes: seq<GraphNode>) {
    forall i, j :: 0 <= i < j < |nodes| ==> nodes[i].id != nodes[j].id
  }

  function IdKey(n: GraphNode): (int, int) {
    (n.id, 0)
  }

  function Ids(nodes: seq<GraphNode>): seq<int> {
    seq(|nodes|, i requires 0 <= i < |nodes| => nodes[i].id)
  }

  function PairKey(p: Pair): (int, int) {
    p
  }

  /** The outcome of the invariant check. */
  datatype Verdict = Violations(pairs: set<Pair>) | Split(groups: seq<seq<int>>) | Sound(connectedNoManual: bool)

  ghost predicate IsListing(s: set<Pair>, q: seq<Pair>) {
    (forall p :: p in q <==> p in s) && forall i, j :: 0 <= i < j < |q| ==> q[i] != q[j]
  }

  /** Some listing of a set, each member once. */
  method Listing(s: set<Pair>) returns (q: seq<Pair>)
    ensures IsListing(s, q)
  {
    q := [];
    var rest := s;
    while rest != {}
      invariant rest <= s && IsListing(s - rest, q)
      decreases rest
    {
      var p :| p in rest;
      assert p !in q;
      q := q + [p];
      rest := rest - {p};
    }
  }

  /** The edges that are neither straits nor added by hand. */
  function RealPairs(edges: Table): set<Pair> {
    set p | p in edges && edges[p].kind != StraitEdge && !edges[p].manual
  }

  lemma ListingJoined(s: set<Pair>, q: seq<Pair>, r: seq<Pair>, ids: seq<int>)
    requires IsListing(s, q) && IsListing(s, r)
    ensures SingleComponent(ids, q) <==> SingleComponent(ids, r)
  {
    forall x, y | x in ids && y in ids
      ensures Forest.Joined(q, x, y) <==> Forest.Joined(r, x, y)
    {
      if Forest.Joined(q, x, y) {
        Forest.JoinedMore(q, r, x, y);
      }
      if Forest.Joined(r, x, y) {
        Forest.JoinedMore(r, q, x, y);
      }
    }
  }

  /** The kinds by id. */
  function ById(nodes: seq<GraphNode>): map<int, Kind> {
    if nodes == [] then map[]
    else
      var last := nodes[|nodes| - 1];
      ById(nodes[..|nodes| - 1])[last.id := last.kind]
  }

  lemma {:induction false} ByIdExact(nodes: seq<GraphNode>)
    requires DistinctIds(nodes)
    ensures forall i :: 0 <= i < |nodes| ==> nodes[i].id in ById(nodes) && ById(nodes)[nodes[i].id] == nodes[i].kind
    ensures forall k :: k in ById(nodes) ==> exists i :: 0 <= i < |nodes| && nodes[i].id == k
  {
    if nodes != [] {
      ByIdExact(nodes[..|nodes| - 1]);
      forall i | 0 <= i < |nodes|
        ensures nodes[i].id in ById(nodes) && ById(nodes)[nodes[i].id] == nodes[i].kind
      {
        if i < |nodes| - 1 {
          assert nodes[..|nodes| - 1][i] == nodes[i];
        }
      }
    }
  }

  /** The ids in ascending order. */
  function SortedIds(nodes: seq<GraphNode>): seq<int> {
    Ids(SortBy(IdKey, nodes))
  }

  lemma SortedIdsExact(nodes: seq<GraphNode>)
    requires DistinctIds(nodes)
    ensures Ascending(SortedIds(nodes)) && |SortedIds(nodes)| == |nodes|
    ensures forall x :: x in SortedIds(nodes) <==> exists i :: 0 <= i < |nodes| && nodes[i].id == x
  {
    var r := SortBy(IdKey, nodes);
    SortStrict(IdKey, nodes);
    SortMembers(IdKey, nodes);
    forall x
      ensures x in SortedIds(nodes) <==> exists i :: 0 <= i < |nodes| && nodes[i].id == x
    {
      SameIds(nodes, r, x);
    }
  }

  lemma SameIds(nodes: seq<GraphNode>, r: seq<GraphNode>, x: int)
    requires forall n :: n in r <==> n in nodes
    ensures x in Ids(r) <==> exists i :: 0 <= i < |nodes| && nodes[i].id == x
  {
    if x in Ids(r) {
      var j :| 0 <= j < |r| && Ids(r)[j] == x;
      var n := r[j];
      assert n in r && n in nodes;
      var i :| 0 <= i < |nodes| && nodes[i] == n;
    }
    if i :| 0 <= i < |nodes| && nodes[i].id == x {
      var n := nodes[i];
      assert n in nodes && n in r;
      var j :| 0 <= j < |r| && r[j] == n;
      assert Ids(r)[j] == x;
    }
  }

  /** The nodes form one component under these pairs. */
  ghost predicate Connected(nodes: seq<GraphNode>, pairs: set<Pair>) {
    exists q :: IsListing(pairs, q) && SingleComponent(SortedIds(nodes), q)
  }

  ghost predicate AllSound(nodes: seq<GraphNode>, edges: Table) {
    forall p :: p in edges ==> EdgeSound(nodes, p, edges[p])
  }

  lemma SoundEnds(nodes: seq<GraphNode>, edges: Table, pairs: set<Pair>, q: seq<Pair>)
    requires DistinctIds(nodes) && AllSound(nodes, edges) && pairs <= edges.Keys && IsListing(pairs, q)
    ensures Within(SortedIds(nodes), q)
  {
    SortedIdsExact(nodes);
    forall e | e in q
      ensures e.0 in SortedIds(nodes) && e.1 in SortedIds(nodes)
    {
      assert e in edges && EdgeSound(nodes, e, edges[e]);
    }
  }

  /** The ids and pairs of one component count, wrapped up. */
  method Groups(nodes: seq<GraphNode>, ghost edges: Table, pairs: set<Pair>) returns (groups: seq<seq<int>>)
    requires DistinctIds(nodes) && AllSound(nodes, edges) && pairs <= edges.Keys
    ensures exists q :: IsListing(pairs, q) && AreComponents(SortedIds(nodes), q, groups)
    ensures |groups| == 1 <==> Connected(nodes, pairs)
    ensures |groups| == 0 <==> nodes == []
  {
    var q := Listing(pairs);
    SortedIdsExact(nodes);
    SoundEnds(nodes, edges, pairs, q);
    groups := ConnectedComponents(SortedIds(nodes), q);
    OneGroup(SortedIds(nodes), q, groups);
    forall r | IsListing(pairs, r)
      ensures SingleComponent(SortedIds(nodes), r) <==> SingleComponent(SortedIds(nodes), q)
    {
      ListingJoined(pairs, q, r, SortedIds(nodes));
    }
  }

  method EdgeProblems(nodes: seq<GraphNode>, byId: map<int, Kind>, p: Pair, e: Edge) returns (sound: bool)
    requires DistinctIds(nodes) && byId == ById(nodes)
    ensures sound == EdgeSound(nodes, p, e)
  {
    ByIdExact(nodes);
    sound := true;
    if p.0 == p.1 {
      sound := false;
    }
    if !(e.a < e.b) || (e.a, e.b) != p {
      sound := false;
    }
    if p.0 !in byId || p.1 !in byId {
      sound := false;
    } else if !KindsOk(e.kind, byId[p.0], byId[p.1]) {
      sound := false;
    }
  }

  /** INV-M2 on every edge, then INV-M3: the verdict reports exactly the unsound pairs; else, when the graph falls
      apart, all components but the largest; else whether it holds together without straits and manual edges. */
  method CheckInvariants(nodes: seq<GraphNode>, edges: Table) returns (v: Verdict)
    requires DistinctIds(nodes)
    ensures v.Violations? <==> !AllSound(nodes, edges)
    ensures v.Violations? ==> v.pairs == set p | p in edges && !EdgeSound(nodes, p, edges[p])
    ensures v.Sound? <==> AllSound(nodes, edges) && (nodes == [] || Connected(nodes, edges.Keys))
    ensures v.Split? ==> exists q, every :: IsListing(edges.Keys, q) && AreComponents(SortedIds(nodes), q, every) &&
                                          |every| > 1 && v.groups == every[1..]
    ensures v.Sound? ==> v.connectedNoManual == Connected(nodes, RealPairs(edges))
  {
    hide AreComponents, SingleComponent, EdgeSound, Connected;
    var byId := ById(nodes);
    var todo := Listing(edges.Keys);
    var bad: set<Pair> := {};
    for i := 0 to |todo|
      invariant bad == set j | 0 <= j < i && !EdgeSound(nodes, todo[j], edges[todo[j]]) :: todo[j]
    {
      var sound := EdgeProblems(nodes, byId, todo[i], edges[todo[i]]);
      if !sound {
        bad := bad + {todo[i]};
      }
    }
    BadExact(nodes, edges, todo, bad);
    if bad != {} {
      return Violations(bad);
    }
    var groups := Groups(nodes, edges, edges.Keys);
    if |groups| > 1 {
      return Split(groups[1..]);
    }
    var own := Groups(nodes, edges, RealPairs(edges));
    v := Sound(|own| == 1);
  }

  lemma BadExact(nodes: seq<GraphNode>, edges: Table, todo: seq<Pair>, bad: set<Pair>)
    requires IsListing(edges.Keys, todo)
    requires forall j :: 0 <= j < |todo| ==> todo[j] in edges
    requires bad == set j | 0 <= j < |todo| && !EdgeSound(nodes, todo[j], edges[todo[j]]) :: todo[j]
    ensures bad == set p | p in edges && !EdgeSound(nodes, p, edges[p])
    ensures bad == {} <==> AllSound(nodes, edges)
  {
    forall p | p in edges && !EdgeSound(nodes, p, edges[p])
      ensures p in bad
    {
      var j :| 0 <= j < |todo| && todo[j] == p;
    }
    if !AllSound(nodes, edges) {
      var p :| p in edges && !EdgeSound(nodes, p, edges[p]);
      assert p in bad;
    }
  }

  // ------------------------------------------------------------------- graph

  datatype Outcome =
    | Built(nodes: seq<GraphNode>, edges: seq<Edge>, connectedNoManual: bool)
    | OverrideErrors(errors: Problems)
    | InvariantErrors(verdict: Verdict)

  function PairsOf(edges: seq<Edge>): seq<Pair> {
    seq(|edges|, i requires 0 <= i < |edges| => (edges[i].a, edges[i].b))
  }

  ghost predicate StrictlyByPair(edges: seq<Edge>) {
    forall i, j :: 0 <= i < j < |edges| ==> LexLess((edges[i].a, edges[i].b), (edges[j].a, edges[j].b))
  }

  /** What a built graph promises: nodes ascending by id, edges strictly ascending by pair, every edge sound, and the
      whole connected. */
  ghost predicate GraphSound(nodes: seq<GraphNode>, edges: seq<Edge>) {
    (forall i, j :: 0 <= i < j < |nodes| ==> nodes[i].id < nodes[j].id) && StrictlyByPair(edges) &&
    (forall i :: 0 <= i < |edges| ==> EdgeSound(nodes, (edges[i].a, edges[i].b), edges[i])) &&
    (nodes == [] || SingleComponent(Ids(nodes), PairsOf(edges)))
  }

  /** The edge list holds exactly the table. */
  ghost predicate Lists(edges: seq<Edge>, table: Table) {
    (forall i :: 0 <= i < |edges| ==>
      (edges[i].a, edges[i].b) in table && table[(edges[i].a, edges[i].b)] == edges[i]) &&
    (forall p :: p in table ==> exists i :: 0 <= i < |edges| && edges[i] == table[p])
  }

  function ByKey(nodes: seq<GraphNode>): Nodes {
    if nodes == [] then map[]
    else
      var last := nodes[|nodes| - 1];
      ByKey(nodes[..|nodes| - 1])[last.key := last]
  }

  /** Overrides, invariants, and the sorted result. A graph is built exactly when the overrides are consistent, every
      edge of the final table is sound, and the graph is connected; it is then sound and holds exactly that table. */
  method BuildGraph(nodes: seq<GraphNode>, auto: Table, ov: Overrides) returns (r: Outcome)
    requires DistinctIds(nodes)
    ensures r.Built? <==> Consistent(ByKey(nodes), auto, ov) && AllSound(nodes, FinalTable(ByKey(nodes), auto, ov)) &&
                          (nodes == [] || Connected(nodes, FinalTable(ByKey(nodes), auto, ov).Keys))
    ensures r.OverrideErrors? <==> !Consistent(ByKey(nodes), auto, ov)
    ensures r.Built? ==> GraphSound(r.nodes, r.edges) && Lists(r.edges, FinalTable(ByKey(nodes), auto, ov))
    ensures r.Built? ==> multiset(r.nodes) == multiset(nodes)
    ensures r.Built? ==> r.connectedNoManual == Connected(nodes, RealPairs(FinalTable(ByKey(nodes), auto, ov)))
  {
    hide Consistent, FinalTable, Connected, AllSound;
    var table := new EdgeTable(auto);
    var errors := table.Apply(ByKey(nodes), ov);
    if !NoProblem(errors) {
      return OverrideErrors(errors);
    }
    var verdict := CheckInvariants(nodes, table.edges);
    if !verdict.Sound? {
      return InvariantErrors(verdict);
    }
    var listing := Listing(table.edges.Keys);
    var edges := EdgesInOrder(table.edges, listing);
    BuiltSound(nodes, table.edges, listing);
    r := Built(SortBy(IdKey, nodes), edges, verdict.connectedNoManual);
  }

  /** The edges of the table in the order of their pairs. */
  function EdgesInOrder(table: Table, listing: seq<Pair>): seq<Edge>
    requires forall p :: p in listing ==> p in table
  {
    var sorted := SortBy(PairKey, listing);
    SortMembers(PairKey, listing);
    seq(|sorted|, i requires 0 <= i < |sorted| => assert sorted[i] in sorted; table[sorted[i]])
  }

  lemma EdgesInOrderExact(nodes: seq<GraphNode>, table: Table, listing: seq<Pair>)
    requires AllSound(nodes, table) && IsListing(table.Keys, listing)
    ensures StrictlyByPair(EdgesInOrder(table, listing)) && Lists(EdgesInOrder(table, listing), table)
    ensures PairsOf(EdgesInOrder(table, listing)) == SortBy(PairKey, listing)
  {
    var sorted, edges := SortBy(PairKey, listing), EdgesInOrder(table, listing);
    SortMembers(PairKey, listing);
    SortStrict(PairKey, listing);
    forall i | 0 <= i < |sorted|
      ensures sorted[i] in table && edges[i] == table[sorted[i]] && (edges[i].a, edges[i].b) == sorted[i]
    {
      var p := sorted[i];
      assert p in sorted && EdgeSound(nodes, p, table[p]);
    }
    forall p | p in table
      ensures exists i :: 0 <= i < |edges| && edges[i] == table[p]
    {
      assert p in listing && p in sorted;
      var i :| 0 <= i < |sorted| && sorted[i] == p;
      assert edges[i] == table[p];
    }
  }

  lemma PermutedSound(nodes: seq<GraphNode>, perm: seq<GraphNode>, p: Pair, e: Edge)
    requires EdgeSound(nodes, p, e) && forall n :: n in nodes ==> n in perm
    ensures EdgeSound(perm, p, e)
  {
    var i, j :| 0 <= i < |nodes| && 0 <= j < |nodes| && nodes[i].id == p.0 && nodes[j].id == p.1 &&
                KindsOk(e.kind, nodes[i].kind, nodes[j].kind);
    var x, y := nodes[i], nodes[j];
    assert x in perm && y in perm;
    var k :| 0 <= k < |perm| && perm[k] == x;
    var l :| 0 <= l < |perm| && perm[l] == y;
  }

  lemma BuiltSound(nodes: seq<GraphNode>, table: Table, listing: seq<Pair>)
    requires DistinctIds(nodes) && AllSound(nodes, table) && IsListing(table.Keys, listing)
    requires nodes == [] || Connected(nodes, table.Keys)
    ensures GraphSound(SortBy(IdKey, nodes), EdgesInOrder(table, listing)) && Lists(EdgesInOrder(table, listing), table)
  {
    var sorted, edges := SortBy(IdKey, nodes), EdgesInOrder(table, listing);
    EdgesInOrderExact(nodes, table, listing);
    SortStrict(IdKey, nodes);
    SortMembers(IdKey, nodes);
    forall i | 0 <= i < |edges|
      ensures EdgeSound(sorted, (edges[i].a, edges[i].b), edges[i])
    {
      PermutedSound(nodes, sorted, (edges[i].a, edges[i].b), edges[i]);
    }
    if nodes != [] {
      var q :| IsListing(table.Keys, q) && SingleComponent(SortedIds(nodes), q);
      SortMembers(PairKey, listing);
      SortStrict(PairKey, listing);
      ListingJoined(table.Keys, q, PairsOf(edges), Ids(sorted));
    }
  }
}
