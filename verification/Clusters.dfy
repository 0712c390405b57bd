/** Clusters of province parts, and the two patches that move whole clusters (tools/map_pipeline/patches.py). Polygons
    and their geometry are library matters: a polygon is a value of any type, and distance, covering, area and union
    are given functions of polygons. */
module Clusters {
  import opened Optional
  import opened Components
  import opened Forest
  import opened Walks

  type Point = (real, real)

  /** The geometry: closer than the gap, covering a point, area; touching, union and union area of part lists. */
  datatype Geometry<!P> = Geometry(close: (P, P) -> bool, covers: (P, Point) -> bool, area: P -> real,
                                   touches: (seq<P>, seq<P>) -> bool, fuse: (seq<P>, seq<P>) -> seq<P>,
                                   unionArea: seq<P> -> real)

  /** Distance does not depend on the order of its arguments. */
  ghost predicate Symmetric<P(!new)>(geo: Geometry<P>) {
    forall x, y :: geo.close(x, y) == geo.close(y, x)
  }

  /** Two parts closer than the gap, by index. */
  ghost function Near<P(!new)>(geo: Geometry<P>, parts: seq<P>): (int, int) -> bool {
    (a, b) => 0 <= a < |parts| && 0 <= b < |parts| && a != b && geo.close(parts[a], parts[b])
  }

  function Indices(n: nat): (s: seq<int>)
    ensures |s| == n && forall i :: 0 <= i < n ==> s[i] == i
  {
    seq(n, i => i)
  }

  lemma InIndices(n: nat)
    ensures forall x :: x in Indices(n) <==> 0 <= x < n
  {
    forall x | 0 <= x < n
      ensures x in Indices(n)
    {
      assert Indices(n)[x] == x;
    }
  }

  function IndexSet(n: nat): (r: set<int>)
    ensures forall x :: x in r <==> 0 <= x < n
  {
    InIndices(n);
    set x | x in Indices(n)
  }

  ghost predicate Somewhere(groups: seq<seq<int>>, x: int) {
    exists g :: 0 <= g < |groups| && x in groups[g]
  }

  /** The clusters: every index in one group; two indices in one group exactly when a chain of close parts links them;
      groups ascending within, and in the order of their first members. */
  ghost predicate AreClusters<P(!new)>(geo: Geometry<P>, parts: seq<P>, groups: seq<seq<int>>) {
    (forall g :: 0 <= g < |groups| ==> groups[g] != [] && Ascending(groups[g])) &&
    (forall x :: Somewhere(groups, x) <==> 0 <= x < |parts|) &&
    (forall g, h, x, y :: 0 <= g < |groups| && 0 <= h < |groups| && x in groups[g] && y in groups[h] ==>
       (g == h <==> Linked(Near(geo, parts), x, y))) &&
    ByFirst(groups)
  }

  /** The close pairs looked at before pair (i, j). */
  ghost predicate PairsUpTo<P(!new)>(geo: Geometry<P>, parts: seq<P>, pairs: seq<(int, int)>, i: int, j: int) {
    forall e :: e in pairs <==>
      0 <= e.0 < e.1 < |parts| && geo.close(parts[e.0], parts[e.1]) && (e.0 < i || (e.0 == i && e.1 < j))
  }

  lemma PairsLinkNear<P(!new)>(geo: Geometry<P>, parts: seq<P>, pairs: seq<(int, int)>, a: int, b: int)
    requires Symmetric(geo) && PairsUpTo(geo, parts, pairs, |parts|, 0)
    ensures Joined(pairs, a, b) <==> Linked(Near(geo, parts), a, b)
  {
    if Joined(pairs, a, b) {
      LinkedMono(Graph(pairs), Near(geo, parts), a, b);
    }
    if Linked(Near(geo, parts), a, b) {
      forall x, y | Near(geo, parts)(x, y)
        ensures Graph(pairs)(x, y)
      {
        assert (x, y) in pairs || (y, x) in pairs;
      }
      LinkedMono(Near(geo, parts), Graph(pairs), a, b);
    }
  }

  lemma GroupsAreClusters<P(!new)>(geo: Geometry<P>, parts: seq<P>, pairs: seq<(int, int)>, root: map<int, int>,
                                   order: seq<int>, groups: seq<seq<int>>)
    requires Symmetric(geo) && PairsUpTo(geo, parts, pairs, |parts|, 0) && ClassesAre(root, pairs)
    requires Grouped(Indices(|parts|), root, order, groups)
    ensures AreClusters(geo, parts, groups)
  {
    var ids := Indices(|parts|);
    InIndices(|parts|);
    forall g | 0 <= g < |groups|
      ensures Ascending(groups[g])
      ensures forall x :: x in groups[g] <==> x in IndexSet(|parts|) && x in root && root[x] == order[g]
    {
      MembersExact(ids, root, order[g]);
    }
    forall x
      ensures Somewhere(groups, x) <==> 0 <= x < |parts|
    {
      if 0 <= x < |parts| {
        var r := root[ids[x]];
        assert r in order;
        var g :| 0 <= g < |order| && order[g] == r;
        assert x in groups[g];
      }
    }
    forall g, h, x, y | 0 <= g < |groups| && 0 <= h < |groups| && x in groups[g] && y in groups[h]
      ensures g == h <==> Linked(Near(geo, parts), x, y)
    {
      PairsLinkNear(geo, parts, pairs, x, y);
    }
  }

  /** Joins the classes of one close pair: the root of i is hung under the root of j. */
  method JoinPair(f: UnionFind, i: int, j: int, ghost pairs: seq<(int, int)>)
    requires f.Valid() && i in f.parent && j in f.parent && ClassesAre(f.root, pairs)
    requires forall e :: e in pairs ==> e.0 in f.root && e.1 in f.root
    modifies f
    ensures f.Valid() && f.parent.Keys == f.root.Keys == old(f.parent.Keys) && ClassesAre(f.root, pairs + [(i, j)])
  {
    hide IsForest, ClassesAre;
    ValidKeys(f);
    var pi := f.Find(i);
    var pj := f.Find(j);
    ghost var was := f.root;
    ValidKeys(f);
    RootsAreRoots(f);
    if pi != pj {
      f.Link(pi, pj);
      MergeClasses(was, pairs, i, j, pi, pj, f.root);
    } else {
      SameClass(was, pairs, i, j);
    }
    ValidKeys(f);
  }

  lemma PairsBegin<P(!new)>(geo: Geometry<P>, parts: seq<P>)
    ensures PairsUpTo(geo, parts, [], 0, 0)
  {
  }

  lemma PairsRow<P(!new)>(geo: Geometry<P>, parts: seq<P>, pairs: seq<(int, int)>, i: nat)
    ensures i < |parts| && PairsUpTo(geo, parts, pairs, i, 0) ==> PairsUpTo(geo, parts, pairs, i, i + 1)
    ensures i < |parts| && PairsUpTo(geo, parts, pairs, i, |parts|) ==> PairsUpTo(geo, parts, pairs, i + 1, 0)
  {
  }

  lemma PairsNext<P(!new)>(geo: Geometry<P>, parts: seq<P>, pairs: seq<(int, int)>, i: nat, j: nat)
    requires i < j < |parts| && PairsUpTo(geo, parts, pairs, i, j)
    ensures forall e :: e in pairs ==> e.0 in IndexSet(|parts|) && e.1 in IndexSet(|parts|)
    ensures PairsUpTo(geo, parts, if geo.close(parts[i], parts[j]) then pairs + [(i, j)] else pairs, i, j + 1)
  {
    assert forall e :: e in pairs + [(i, j)] <==> e in pairs || e == (i, j);
  }

  /** Joins all close pairs of parts. Roots are linked in discovery order, not by size or number. */
  method JoinClose<P(!new)>(geo: Geometry<P>, parts: seq<P>) returns (f: UnionFind, ghost pairs: seq<(int, int)>)
    ensures fresh(f) && f.Valid() && f.parent.Keys == IndexSet(|parts|)
    ensures PairsUpTo(geo, parts, pairs, |parts|, 0) && ClassesAre(f.root, pairs)
  {
    hide IsForest, ClassesAre, PairsUpTo, IndexSet;
    f := new UnionFind(IndexSet(|parts|));
    ValidKeys(f);
    NoPairsClasses(f.root);
    pairs := [];
    PairsBegin(geo, parts);
    for i := 0 to |parts|
      invariant fresh(f) && f.Valid() && f.parent.Keys == f.root.Keys == IndexSet(|parts|)
      invariant PairsUpTo(geo, parts, pairs, i, 0) && ClassesAre(f.root, pairs)
    {
      PairsRow(geo, parts, pairs, i);
      for j := i + 1 to |parts|
        invariant fresh(f) && f.Valid() && f.parent.Keys == f.root.Keys == IndexSet(|parts|)
        invariant PairsUpTo(geo, parts, pairs, i, j) && ClassesAre(f.root, pairs)
      {
        PairsNext(geo, parts, pairs, i, j);
        if geo.close(parts[i], parts[j]) {
          JoinPair(f, i, j, pairs);
          pairs := pairs + [(i, j)];
        }
      }
      PairsRow(geo, parts, pairs, i);
    }
  }

  /** The clusters of a part list. */
  method PartClusters<P(!new)>(geo: Geometry<P>, parts: seq<P>) returns (clusters: seq<seq<int>>)
    requires Symmetric(geo)
    ensures AreClusters(geo, parts, clusters)
  {
    hide IsForest, ClassesAre, Grouped, PairsUpTo, AreClusters;
    var f, pairs := JoinClose(geo, parts);
    ghost var order;
    InIndices(|parts|);
    clusters, order := GroupByRoot(Indices(|parts|), f);
    GroupsAreClusters(geo, parts, pairs, f.root, order, clusters);
  }

  // ----------------------------------------------------------- taking a cluster

  ghost predicate Holds<P(!new)>(geo: Geometry<P>, parts: seq<P>, group: seq<int>, point: Point) {
    exists k :: 0 <= k < |group| && 0 <= group[k] < |parts| && geo.covers(parts[group[k]], point)
  }

  ghost predicate IsFirst<P(!new)>(geo: Geometry<P>, parts: seq<P>, clusters: seq<seq<int>>, point: Point, g: nat) {
    g < |clusters| && Holds(geo, parts, clusters[g], point) && forall h :: 0 <= h < g ==>
      !Holds(geo, parts, clusters[h], point)
  }

  /** Among the clusters of the parts, the first that holds the point, or none. */
  ghost predicate Located<P(!new)>(geo: Geometry<P>, parts: seq<P>, clusters: seq<seq<int>>, point: Point,
                            found: Option<nat>) {
    AreClusters(geo, parts, clusters) &&
    match found
    case Some(g) => IsFirst(geo, parts, clusters, point, g)
    case None => forall g :: 0 <= g < |clusters| ==> !Holds(geo, parts, clusters[g], point)
  }

  /** The first cluster with a part that covers the point. */
  method ClusterAt<P(!new)>(geo: Geometry<P>, parts: seq<P>, clusters: seq<seq<int>>,
                     point: Point) returns (found: Option<nat>)
    requires AreClusters(geo, parts, clusters)
    ensures Located(geo, parts, clusters, point, found)
  {
    for g := 0 to |clusters|
      invariant forall h :: 0 <= h < g ==> !Holds(geo, parts, clusters[h], point)
    {
      for k := 0 to |clusters[g]|
        invariant forall l :: 0 <= l < k && 0 <= clusters[g][l] < |parts| ==> !geo.covers(parts[clusters[g][l]], point)
      {
        var x := clusters[g][k];
        assert x in clusters[g];
        assert Somewhere(clusters, x);
        if geo.covers(parts[x], point) {
          return Some(g);
        }
      }
    }
    return None;
  }

  /** The parts at the given indices, in index order, and the rest. */
  function Picked<P(!new)>(parts: seq<P>, taken: set<int>): seq<P> {
    if parts == [] then []
    else Picked(parts[..|parts| - 1], taken) + if |parts| - 1 in taken then [parts[|parts| - 1]] else []
  }

  function Rest<P(!new)>(parts: seq<P>, taken: set<int>): seq<P> {
    if parts == [] then []
    else Rest(parts[..|parts| - 1], taken) + if |parts| - 1 in taken then [] else [parts[|parts| - 1]]
  }

  lemma SplitLast<P(!new)>(front: seq<P>, last: P, taken: set<int>)
    ensures Picked(front + [last], taken) == Picked(front, taken) + if |front| in taken then [last] else []
    ensures Rest(front + [last], taken) == Rest(front, taken) + if |front| in taken then [] else [last]
  {
    assert (front + [last])[..|front|] == front;
  }

  /** Nothing is lost and nothing doubled. */
  lemma {:induction false} PickedAndRest<P(!new)>(parts: seq<P>, taken: set<int>)
    ensures multiset(Picked(parts, taken)) + multiset(Rest(parts, taken)) == multiset(parts)
  {
    if parts != [] {
      hide Picked, Rest;
      var front, last := parts[..|parts| - 1], parts[|parts| - 1];
      assert parts == front + [last];
      PickedAndRest(front, taken);
      SplitLast(front, last, taken);
    }
  }

  lemma {:induction false} PickedFrom<P(!new)>(parts: seq<P>, taken: set<int>, x: P)
    ensures x in Picked(parts, taken) <==> exists i :: 0 <= i < |parts| && i in taken && parts[i] == x
  {
    if parts != [] {
      var front, last := parts[..|parts| - 1], parts[|parts| - 1];
      PickedFrom(front, taken, x);
      assert forall i :: 0 <= i < |front| ==> parts[i] == front[i];
    }
  }

  lemma {:induction false} RestFrom<P(!new)>(parts: seq<P>, taken: set<int>, x: P)
    ensures x in Rest(parts, taken) <==> exists i :: 0 <= i < |parts| && i !in taken && parts[i] == x
  {
    if parts != [] {
      var front, last := parts[..|parts| - 1], parts[|parts| - 1];
      RestFrom(front, taken, x);
      assert forall i :: 0 <= i < |front| ==> parts[i] == front[i];
    }
  }

  /** A union of whole clusters. */
  ghost predicate WholeClusters<P(!new)>(geo: Geometry<P>, parts: seq<P>, taken: set<int>) {
    (forall x :: x in taken ==> 0 <= x < |parts|) &&
    forall x, y :: x in taken && Linked(Near(geo, parts), x, y) ==> y in taken
  }

  /** No part left behind is closer than the gap to a part taken. */
  ghost predicate Separated<P(!new)>(geo: Geometry<P>, moved: seq<P>, rest: seq<P>) {
    forall i, j :: 0 <= i < |moved| && 0 <= j < |rest| ==> !geo.close(moved[i], rest[j])
  }

  lemma WholeMeansSeparated<P(!new)>(geo: Geometry<P>, parts: seq<P>, taken: set<int>)
    requires WholeClusters(geo, parts, taken)
    ensures Separated(geo, Picked(parts, taken), Rest(parts, taken))
  {
    var moved, rest := Picked(parts, taken), Rest(parts, taken);
    forall i, j | 0 <= i < |moved| && 0 <= j < |rest|
      ensures !geo.close(moved[i], rest[j])
    {
      var p, q := moved[i], rest[j];
      assert p in moved && q in rest;
      PickedFrom(parts, taken, p);
      RestFrom(parts, taken, q);
      var a :| 0 <= a < |parts| && a in taken && parts[a] == p;
      var b :| 0 <= b < |parts| && b !in taken && parts[b] == q;
      if geo.close(p, q) {
        assert Near(geo, parts)(a, b);
        assert Joins(Near(geo, parts), [a, b], a, b);
        assert Reaches(Near(geo, parts), a, b, 1);
      }
    }
  }

  /** The members of the chosen clusters. */
  ghost function Chosen(clusters: seq<seq<int>>, picks: seq<nat>): set<int>
    requires forall k :: 0 <= k < |picks| ==> picks[k] < |clusters|
  {
    set k, x | 0 <= k < |picks| && x in clusters[picks[k]] :: x
  }

  lemma ChosenWhole<P(!new)>(geo: Geometry<P>, parts: seq<P>, clusters: seq<seq<int>>, picks: seq<nat>)
    requires AreClusters(geo, parts, clusters) && forall k :: 0 <= k < |picks| ==> picks[k] < |clusters|
    ensures WholeClusters(geo, parts, Chosen(clusters, picks))
  {
    forall x | x in Chosen(clusters, picks)
      ensures 0 <= x < |parts|
    {
      assert Somewhere(clusters, x);
    }
    forall x, y | x in Chosen(clusters, picks) && Linked(Near(geo, parts), x, y)
      ensures y in Chosen(clusters, picks)
    {
      var k :| 0 <= k < |picks| && x in clusters[picks[k]];
      NearStaysInside(geo, parts, x, y);
      assert Somewhere(clusters, y);
      var h :| 0 <= h < |clusters| && y in clusters[h];
      assert h == picks[k];
    }
  }

  lemma NearStaysInside<P(!new)>(geo: Geometry<P>, parts: seq<P>, x: int, y: int)
    requires Linked(Near(geo, parts), x, y) && 0 <= x < |parts|
    ensures 0 <= y < |parts|
  {
    var n: nat :| Reaches(Near(geo, parts), x, y, n);
    var p :| Joins(Near(geo, parts), p, x, y) && |p| == n + 1;
    if n > 0 {
      assert Near(geo, parts)(p[n - 1], p[n]);
    }
  }

  // -------------------------------------------------------------- the patches

  function Area<P(!new)>(geo: Geometry<P>, parts: seq<P>): real {
    if parts == [] then 0.0 else Area(geo, parts[..|parts| - 1]) + geo.area(parts[|parts| - 1])
  }

  lemma AreaOneMore<P(!new)>(geo: Geometry<P>, s: seq<P>, x: P)
    ensures Area(geo, s + [x]) == Area(geo, s) + geo.area(x)
  {
    assert (s + [x])[..|s|] == s;
  }

  /** Splitting a part list conserves its area, so the drift check after a detach cannot fail. */
  lemma {:induction false} AreaConserved<P(!new)>(geo: Geometry<P>, parts: seq<P>, taken: set<int>)
    ensures Area(geo, Rest(parts, taken)) + Area(geo, Picked(parts, taken)) == Area(geo, parts)
  {
    if parts != [] {
      var front, last := parts[..|parts| - 1], parts[|parts| - 1];
      AreaConserved(geo, front, taken);
      if |parts| - 1 in taken {
        AreaOneMore(geo, Picked(front, taken), last);
        assert Rest(parts, taken) == Rest(front, taken);
      } else {
        AreaOneMore(geo, Rest(front, taken), last);
        assert Picked(parts, taken) == Picked(front, taken);
      }
    }
  }

  function Abs(x: real): real {
    if x < 0.0 then -x else x
  }

  const AREA_TOL := 0.01

  datatype Detach = Detach(fromKey: string, points: seq<Point>, newKey: string, newName: string)
  datatype TransferPart = TransferPart(fromKey: string, point: Point, toKey: string, allowDetached: bool)

  /** The provinces by name and the names by key, changed in place by the patches. */
  class Atlas<P(!new, ==)> {
    const geo: Geometry<P>
    var geoms: map<string, seq<P>>
    var byKey: map<string, seq<string>>

    constructor (geo: Geometry<P>, geoms: map<string, seq<P>>, byKey: map<string, seq<string>>)
      ensures this.geo == geo && this.geoms == geoms && this.byKey == byKey
    {
      this.geo, this.geoms, this.byKey := geo, geoms, byKey;
    }

    /** Keys resolve to names that exist. */
    ghost predicate Valid()
      reads this
    {
      Symmetric(geo) && forall k, i :: k in byKey && 0 <= i < |byKey[k]| ==> byKey[k][i] in geoms
    }

    function NamesOf(key: string): seq<string>
      reads this
    {
      if key in byKey then byKey[key] else []
    }

    /** Detaches the clusters at the given points into a new province. On success whole clusters moved, nothing was
        lost, nothing left behind is close to anything moved, the old province keeps some parts, the new one has some
        if any point was given, and no other province changed. On failure nothing changed. */
    method ApplyDetach(d: Detach) returns (ok: bool, ghost clusters: seq<seq<int>>, ghost picks: seq<nat>)
      requires Valid()
      modifies this
      ensures Valid()
      ensures !ok ==> geoms == old(geoms) && byKey == old(byKey)
      ensures ok ==> |old(NamesOf(d.fromKey))| == 1 && d.newName !in old(geoms) && old(NamesOf(d.newKey)) == []
      ensures ok ==> Detached(old(NamesOf(d.fromKey))[0], d.newName, d.points, clusters, picks, old(geoms), geoms)
      ensures ok ==> byKey == old(byKey)[d.newKey := [d.newName]]
      ensures !ok && |old(NamesOf(d.fromKey))| == 1 && d.newName !in old(geoms) && old(NamesOf(d.newKey)) == [] ==>
                Refused(geo, old(geoms)[old(NamesOf(d.fromKey))[0]], clusters, d.points, picks)
    {
      var names := NamesOf(d.fromKey);
      clusters, picks := [], [];
      if |names| != 1 {
        return false, clusters, picks;
      }
      var name := names[0];
      if d.newName in geoms || NamesOf(d.newKey) != [] {
        return false, clusters, picks;
      }
      var parts := geoms[name];
      var picked, taken;
      picked, taken, clusters, picks := PickClusters(geo, parts, d.points);
      if !picked {
        return false, clusters, picks;
      }
      var moved, rest := Picked(parts, taken), Rest(parts, taken);
      if rest == [] {
        return false, clusters, picks;
      }
      // By AreaConserved the area drift is zero here, so the drift check never rejects.
      DetachFacts(geo, parts, clusters, picks, taken);
      geoms := geoms[name := rest][d.newName := moved];
      byKey := byKey[d.newKey := [d.newName]];
      ok := true;
    }

    /** Moves the cluster at the point to another province: merged into one polygon when it touches it, else added as
        parts of its own if the entry allows that. */
    method ApplyTransferPart(t: TransferPart) returns (ok: bool, ghost clusters: seq<seq<int>>, ghost pick: Option<nat>)
      requires Valid()
      modifies this
      ensures Valid() && byKey == old(byKey)
      ensures !ok ==> geoms == old(geoms)
      ensures old(NamesResolve(t)) ==> Located(geo, old(geoms)[old(NamesOf(t.fromKey))[0]], clusters, t.point, pick)
      ensures ok <==> old(NamesResolve(t)) &&
                      TransferAllowed(geo, t, old(geoms)[old(NamesOf(t.fromKey))[0]],
                        old(geoms)[old(NamesOf(t.toKey))[0]], clusters, pick)
      ensures ok ==> forall name :: name in geoms <==> name in old(geoms)
      ensures ok ==> forall name ::
                       name in geoms && name !in {old(NamesOf(t.fromKey))[0], old(NamesOf(t.toKey))[0]} ==>
                       geoms[name] == old(geoms)[name]
      ensures ok ==> Moved(geo, old(geoms)[old(NamesOf(t.fromKey))[0]], old(geoms)[old(NamesOf(t.toKey))[0]],
                clusters, pick.value,
                           geoms[old(NamesOf(t.fromKey))[0]], geoms[old(NamesOf(t.toKey))[0]])
    {
      hide Located, TransferAllowed, Moved;
      clusters, pick := [], None;
      if t.fromKey == t.toKey {
        return false, clusters, pick;
      }
      var fromNames, toNames := NamesOf(t.fromKey), NamesOf(t.toKey);
      if |fromNames| != 1 || |toNames| != 1 || fromNames[0] == toNames[0] {
        return false, clusters, pick;
      }
      var fromName, toName := fromNames[0], toNames[0];
      var rest, merged;
      ok, rest, merged, clusters, pick := PlanTransfer(geo, t, geoms[fromName], geoms[toName]);
      if ok {
        geoms := geoms[fromName := rest][toName := merged];
      }
    }

    ghost predicate NamesResolve(t: TransferPart)
      reads this
    {
      t.fromKey != t.toKey && |NamesOf(t.fromKey)| == 1 && |NamesOf(t.toKey)| == 1 &&
      NamesOf(t.fromKey)[0] != NamesOf(t.toKey)[0] && NamesOf(t.fromKey)[0] in geoms && NamesOf(t.toKey)[0] in geoms
    }

    /** The effect of a successful detach on the provinces. */
    ghost predicate Detached(name: string, newName: string, points: seq<Point>, clusters: seq<seq<int>>,
                             picks: seq<nat>,
                             was: map<string, seq<P>>, now: map<string, seq<P>>)
      requires name in was
    {
      var parts := was[name];
      AreClusters(geo, parts, clusters) && PicksOk(geo, parts, clusters, points, picks) &&
      (forall k :: 0 <= k < |picks| ==> picks[k] < |clusters|) &&
      var taken := Chosen(clusters, picks);
      now == was[name := Rest(parts, taken)][newName := Picked(parts, taken)] &&
      Rest(parts, taken) != [] && (points != [] ==> Picked(parts, taken) != []) &&
      multiset(Picked(parts, taken)) + multiset(Rest(parts, taken)) == multiset(parts) &&
      Separated(geo, Picked(parts, taken), Rest(parts, taken))
    }
  }

  /** Takes the cluster at each point in turn, until a point lies in no part or in a cluster already taken. */
  method PickClusters<P(!new)>(geo: Geometry<P>, parts: seq<P>, points: seq<Point>)
    returns (ok: bool, taken: set<int>, clusters: seq<seq<int>>, ghost picks: seq<nat>)
    requires Symmetric(geo)
    ensures ok ==> PicksOk(geo, parts, clusters, points, picks) && taken == Chosen(clusters, picks)
    ensures !ok ==> |picks| < |points| && Refused(geo, parts, clusters, points, picks)
  {
    hide PicksOk, AreClusters, Holds;
    clusters := PartClusters(geo, parts);
    picks, taken := [], {};
    NoPicks(geo, parts, clusters);
    assert points[..0] == [];
    for k := 0 to |points|
      invariant |picks| == k && PicksOk(geo, parts, clusters, points[..k], picks)
      invariant (forall i :: 0 <= i < k ==> picks[i] < |clusters|) && taken == Chosen(clusters, picks)
    {
      var found := ClusterAt(geo, parts, clusters, points[k]);
      if found.None? {
        return false, taken, clusters, picks;
      }
      var group := clusters[found.value];
      if exists i :: 0 <= i < |group| && group[i] in taken {
        TakenTwice(geo, parts, clusters, picks, found.value);
        return false, taken, clusters, picks;
      }
      PickMore(geo, parts, clusters, points[..k], picks, points[k], found.value);
      assert points[..k + 1] == points[..k] + [points[k]];
      picks := picks + [found.value];
      taken := taken + set i | 0 <= i < |group| :: group[i];
    }
    assert points[..|points|] == points;
    ok := true;
  }

  lemma NoPicks<P(!new)>(geo: Geometry<P>, parts: seq<P>, clusters: seq<seq<int>>)
    requires AreClusters(geo, parts, clusters)
    ensures PicksOk(geo, parts, clusters, [], []) && Chosen(clusters, []) == {}
  {
  }

  lemma OnePick(groups: seq<seq<int>>, g: nat)
    requires g < |groups|
    ensures Chosen(groups, [g]) == set i | 0 <= i < |groups[g]| :: groups[g][i]
  {
    forall i | 0 <= i < |groups[g]|
      ensures groups[g][i] in Chosen(groups, [g])
    {
      var y := groups[g][i];
      assert y in groups[[g][0]];
    }
  }

  /** Works out a transfer between two part lists: what stays and what the receiver has afterwards. */
  method PlanTransfer<P(!new)>(geo: Geometry<P>, t: TransferPart, parts: seq<P>, target: seq<P>)
    returns (ok: bool, rest: seq<P>, merged: seq<P>, clusters: seq<seq<int>>, pick: Option<nat>)
    requires Symmetric(geo)
    ensures Located(geo, parts, clusters, t.point, pick)
    ensures ok <==> TransferAllowed(geo, t, parts, target, clusters, pick)
    ensures ok ==> Moved(geo, parts, target, clusters, pick.value, rest, merged)
  {
    hide AreClusters, Separated;
    rest, merged := parts, target;
    var groups := PartClusters(geo, parts);
    var found := ClusterAt(geo, parts, groups, t.point);
    clusters, pick := groups, found;
    if found.None? {
      return false, rest, merged, clusters, pick;
    }
    var taken := set i | 0 <= i < |groups[found.value]| :: groups[found.value][i];
    OnePick(groups, found.value);
    var moved := Picked(parts, taken);
    rest, merged := Rest(parts, taken), Receive(geo, moved, target);
    DetachFacts(geo, parts, clusters, [found.value], taken);
    if rest == [] {
      return false, rest, merged, clusters, pick;
    }
    if geo.touches(moved, target) {
      if |merged| != 1 {
        return false, rest, merged, clusters, pick;
      }
    } else if !t.allowDetached {
      return false, rest, merged, clusters, pick;
    }
    ok := Abs(Area(geo, rest) + Area(geo, merged) - (Area(geo, parts) + geo.unionArea(target))) <= AREA_TOL;
  }

  /** The two part lists after a transfer: the cluster leaves whole, nothing near it stays, and a transfer that does
      not touch conserves the parts of the two provinces. */
  ghost predicate Moved<P(!new)>(geo: Geometry<P>, parts: seq<P>, target: seq<P>, clusters: seq<seq<int>>, g: nat,
                                 rest: seq<P>, merged: seq<P>)
  {
    g < |clusters| &&
    var taken := Chosen(clusters, [g]);
    rest == Rest(parts, taken) && merged == Receive(geo, Picked(parts, taken), target) &&
    Separated(geo, Picked(parts, taken), rest) &&
    (!geo.touches(Picked(parts, taken), target) ==>
      multiset(rest) + multiset(merged) == multiset(parts) + multiset(target))
  }

  /** What the receiving province gets. */
  function Receive<P(!new)>(geo: Geometry<P>, moved: seq<P>, target: seq<P>): seq<P> {
    if geo.touches(moved, target) then geo.fuse(moved, target) else target + moved
  }

  /** When a transfer goes through: a cluster holds the point, something stays behind, the cluster merges into one
      polygon or may stay detached, and the area balances. */
  ghost predicate TransferAllowed<P(!new)>(geo: Geometry<P>, t: TransferPart, parts: seq<P>, target: seq<P>,
                                           clusters: seq<seq<int>>, pick: Option<nat>)
  {
    Located(geo, parts, clusters, t.point, pick) && pick.Some? &&
    var taken := Chosen(clusters, [pick.value]);
    var moved, rest := Picked(parts, taken), Rest(parts, taken);
    rest != [] && (if geo.touches(moved, target) then |geo.fuse(moved, target)| == 1 else t.allowDetached) &&
    Abs(Area(geo, rest) + Area(geo, Receive(geo, moved, target)) - (Area(geo,
      parts) + geo.unionArea(target))) <= AREA_TOL
  }

  /** One cluster per point: the first that holds it; no cluster twice. */
  ghost predicate PicksOk<P(!new)>(geo: Geometry<P>, parts: seq<P>, clusters: seq<seq<int>>, points: seq<Point>,
                            picks: seq<nat>) {
    AreClusters(geo, parts, clusters) && |picks| == |points| &&
    (forall k :: 0 <= k < |picks| ==> picks[k] < |clusters| && Holds(geo, parts, clusters[picks[k]], points[k])) &&
    (forall k, g :: 0 <= k < |picks| && 0 <= g < picks[k] ==> !Holds(geo, parts, clusters[g], points[k])) &&
    forall k, l :: 0 <= k < l < |picks| ==> picks[k] != picks[l]
  }

  /** The reasons to refuse a detach after its keys resolved: some point lies in no part, or picks a cluster an earlier
      point picked, or nothing would be left. */
  ghost predicate Refused<P(!new)>(geo: Geometry<P>, parts: seq<P>, clusters: seq<seq<int>>, points: seq<Point>,
                            picks: seq<nat>) {
    |picks| <= |points| && PicksOk(geo, parts, clusters, points[..|picks|], picks) &&
    if |picks| < |points| then
      (forall g :: 0 <= g < |clusters| ==> !Holds(geo, parts, clusters[g], points[|picks|])) ||
      (exists k :: 0 <= k < |picks| && IsFirst(geo, parts, clusters, points[|picks|], picks[k]))
    else Rest(parts, Chosen(clusters, picks)) == []
  }

  lemma TakenTwice<P(!new)>(geo: Geometry<P>, parts: seq<P>, clusters: seq<seq<int>>, picks: seq<nat>, g: nat)
    requires AreClusters(geo, parts, clusters) && g < |clusters| && forall k :: 0 <= k < |picks| ==>
               picks[k] < |clusters|
    requires exists i :: 0 <= i < |clusters[g]| && clusters[g][i] in Chosen(clusters, picks)
    ensures exists k :: 0 <= k < |picks| && picks[k] == g
  {
    var i :| 0 <= i < |clusters[g]| && clusters[g][i] in Chosen(clusters, picks);
    var x := clusters[g][i];
    assert x in clusters[g];
    var k :| 0 <= k < |picks| && x in clusters[picks[k]];
    ReachesSelf(Near(geo, parts), x);
    assert Linked(Near(geo, parts), x, x);
    assert picks[k] == g;
  }

  lemma ChosenMore(clusters: seq<seq<int>>, picks: seq<nat>, g: nat)
    requires g < |clusters| && forall k :: 0 <= k < |picks| ==> picks[k] < |clusters|
    ensures forall k :: 0 <= k <= |picks| ==> (picks + [g])[k] < |clusters|
    ensures Chosen(clusters, picks + [g]) == Chosen(clusters, picks) + set i | 0 <= i < |clusters[g]| :: clusters[g][i]
  {
    var more := picks + [g];
    assert more[|picks|] == g && forall k :: 0 <= k < |picks| ==> more[k] == picks[k];
    forall y
      ensures y in Chosen(clusters, more) <==> y in Chosen(clusters, picks) || y in clusters[g]
    {
      if y in Chosen(clusters, picks) {
        var k :| 0 <= k < |picks| && y in clusters[picks[k]];
        assert y in clusters[more[k]];
      }
      if y in clusters[g] {
        assert y in clusters[more[|picks|]];
      }
    }
  }

  lemma PickMore<P(!new)>(geo: Geometry<P>, parts: seq<P>, clusters: seq<seq<int>>, points: seq<Point>, picks: seq<nat>,
                          point: Point, g: nat)
    requires PicksOk(geo, parts, clusters, points, picks)
    requires IsFirst(geo, parts, clusters, point, g)
    requires forall i :: 0 <= i < |clusters[g]| ==> clusters[g][i] !in Chosen(clusters, picks)
    ensures PicksOk(geo, parts, clusters, points + [point], picks + [g])
    ensures Chosen(clusters, picks + [g]) == Chosen(clusters, picks) + set i | 0 <= i < |clusters[g]| :: clusters[g][i]
  {
    hide Holds, AreClusters;
    IsFirstIn(geo, parts, clusters, point, g);
    ChosenMore(clusters, picks, g);
    var x := clusters[g][0];
    assert x in clusters[g];
    assert forall k :: 0 <= k < |picks| ==> picks[k] != g;
  }

  lemma IsFirstIn<P(!new)>(geo: Geometry<P>, parts: seq<P>, clusters: seq<seq<int>>, point: Point, g: nat)
    requires IsFirst(geo, parts, clusters, point, g)
    ensures g < |clusters| && clusters[g] != []
  {
  }

  lemma {:induction false} PickedSome<P(!new)>(parts: seq<P>, taken: set<int>, i: nat)
    requires i < |parts| && i in taken
    ensures Picked(parts, taken) != []
  {
    if i < |parts| - 1 {
      PickedSome(parts[..|parts| - 1], taken, i);
    }
  }

  lemma DetachFacts<P(!new)>(geo: Geometry<P>, parts: seq<P>, clusters: seq<seq<int>>, picks: seq<nat>, taken: set<int>)
    requires AreClusters(geo, parts, clusters) && (forall k :: 0 <= k < |picks| ==> picks[k] < |clusters|)
    requires taken == Chosen(clusters, picks)
    ensures multiset(Picked(parts, taken)) + multiset(Rest(parts, taken)) == multiset(parts)
    ensures Separated(geo, Picked(parts, taken), Rest(parts, taken))
    ensures picks != [] ==> Picked(parts, taken) != []
  {
    PickedAndRest(parts, taken);
    ChosenWhole(geo, parts, clusters, picks);
    WholeMeansSeparated(geo, parts, taken);
    if picks != [] {
      var g := clusters[picks[0]];
      var x := g[0];
      assert x in g && Somewhere(clusters, x);
      assert x in taken;
      PickedSome(parts, taken, x);
    }
  }
}
