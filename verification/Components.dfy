/** Connected components by union-find, as both the graph builder and the manifest validator compute them
    (tools/map_pipeline/graph.py and tools/map_pipeline/manifest_schema.py). */
module Components {
  import opened Forest
  import opened Sorting

  ghost predicate Ascending(s: seq<int>) {
    forall i, j :: 0 <= i < j < |s| ==> s[i] < s[j]
  }

  ghost predicate Within(ids: seq<int>, pairs: seq<(int, int)>) {
    forall e :: e in pairs ==> e.0 in ids && e.1 in ids
  }

  ghost predicate InSome(groups: seq<seq<int>>, x: int) {
    exists g :: 0 <= g < |groups| && x in groups[g]
  }

  /** The components of the graph: every id lies in one group, two ids share a group exactly when they are connected,
      each group is ascending, and the groups come largest first, then by least member. */
  ghost predicate AreComponents(ids: seq<int>, pairs: seq<(int, int)>, groups: seq<seq<int>>) {
    (forall g :: 0 <= g < |groups| ==> groups[g] != [] && Ascending(groups[g])) &&
    (forall x :: x in ids <==> InSome(groups, x)) &&
    (forall g, h, x, y :: 0 <= g < |groups| && 0 <= h < |groups| && x in groups[g] && y in groups[h] ==>
       (g == h <==> Joined(pairs, x, y))) &&
    (forall g, h :: 0 <= g < h < |groups| ==> LexLess(Rank(groups[g]), Rank(groups[h])))
  }

  function Rank(g: seq<int>): (int, int) {
    (-|g|, if g == [] then 0 else g[0])
  }

  /** Joins the two ends of every pair, hanging the larger root under the smaller. */
  method JoinAll(ids: seq<int>, pairs: seq<(int, int)>) returns (f: UnionFind)
    requires Within(ids, pairs)
    ensures fresh(f) && f.Valid() && f.Descending() && f.parent.Keys == set x | x in ids
    ensures ClassesAre(f.root, pairs)
  {
    hide IsForest, ClassesAre;
    f := new UnionFind(set x | x in ids);
    ValidKeys(f);
    NoPairsClasses(f.root);
    assert pairs[..0] == [];
    for k := 0 to |pairs|
      invariant fresh(f) && f.Valid() && f.Descending() && f.parent.Keys == f.root.Keys == set x | x in ids
      invariant ClassesAre(f.root, pairs[..k])
    {
      assert pairs[k] in pairs;
      var ra := f.Find(pairs[k].0);
      var rb := f.Find(pairs[k].1);
      ghost var was := f.root;
      RootsAreRoots(f);
      if ra != rb {
        f.Link(if ra < rb then rb else ra, if ra < rb then ra else rb);
        MergeClasses(was, pairs[..k], pairs[k].0, pairs[k].1, if ra < rb then rb else ra, if ra < rb then ra else rb,
          f.root);
      } else {
        SameClass(was, pairs[..k], pairs[k].0, pairs[k].1);
      }
      ValidKeys(f);
      assert pairs[..k + 1] == pairs[..k] + [(pairs[k].0, pairs[k].1)];
    }
    assert pairs[..|pairs|] == pairs;
  }

  lemma ValidKeys(f: UnionFind)
    requires f.Valid()
    ensures f.parent.Keys == f.root.Keys
  {
  }

  lemma RootsAreRoots(f: UnionFind)
    requires f.Valid()
    ensures forall x :: x in f.parent ==>
              x in f.root && f.root[x] in f.parent && f.root[x] in f.root && f.root[f.root[x]] == f.root[x]
  {
    forall x | x in f.parent
      ensures f.root[x] in f.parent && f.root[f.root[x]] == f.root[x]
    {
      assert GoodNode(f.parent, f.root, f.rank, x);
      assert GoodNode(f.parent, f.root, f.rank, f.root[x]);
    }
  }

  /** A pair inside one class changes no component. */
  lemma SameClass(root: map<int, int>, pairs: seq<(int, int)>, u: int, v: int)
    requires ClassesAre(root, pairs) && (forall e :: e in pairs ==> e.0 in root && e.1 in root)
    requires u in root && v in root && root[u] == root[v]
    ensures ClassesAre(root, pairs + [(u, v)])
  {
    MergeClasses(root, pairs, u, v, root[u], root[v], Merged(root, root[u], root[v]));
    assert Merged(root, root[u], root[v]) == root;
  }

  ghost predicate Rooted(ids: seq<int>, root: map<int, int>) {
    forall j :: 0 <= j < |ids| ==> ids[j] in root
  }

  /** The ids of one class, in order. */
  ghost function Members(ids: seq<int>, root: map<int, int>, r: int): seq<int>
    requires Rooted(ids, root)
  {
    if ids == [] then []
    else
      var last := ids[|ids| - 1];
      Members(ids[..|ids| - 1], root, r) + if root[last] == r then [last] else []
  }

  lemma {:induction false} MembersAre(ids: seq<int>, root: map<int, int>, r: int, x: int)
    requires Rooted(ids, root)
    ensures x in Members(ids, root, r) <==> x in ids && x in root && root[x] == r
  {
    if ids != [] {
      var rest, last := ids[..|ids| - 1], ids[|ids| - 1];
      assert ids == rest + [last];
      MembersAre(rest, root, r, x);
    }
  }

  lemma {:induction false} MembersExact(ids: seq<int>, root: map<int, int>, r: int)
    requires Rooted(ids, root) && Ascending(ids)
    ensures forall x :: x in Members(ids, root, r) <==> x in ids && x in root && root[x] == r
    ensures Ascending(Members(ids, root, r))
  {
    forall x
      ensures x in Members(ids, root, r) <==> x in ids && x in root && root[x] == r
    {
      MembersAre(ids, root, r, x);
    }
    if ids != [] {
      var rest, last := ids[..|ids| - 1], ids[|ids| - 1];
      MembersExact(rest, root, r);
      BelowLast(rest, last, Members(rest, root, r));
      assert forall j :: 0 <= j < |rest| ==> ids[j] == rest[j];
    }
  }

  lemma BelowLast(rest: seq<int>, last: int, m: seq<int>)
    requires forall j :: 0 <= j < |rest| ==> rest[j] < last
    requires forall x :: x in m ==> x in rest
    ensures forall i :: 0 <= i < |m| ==> m[i] < last
  {
    forall i | 0 <= i < |m|
      ensures m[i] < last
    {
      assert m[i] in m;
    }
  }

  /** The groups found so far, in order. */
  ghost function Listed(found: seq<int>, dict: map<int, seq<int>>): seq<seq<int>>
    requires forall i :: 0 <= i < |found| ==> found[i] in dict
  {
    seq(|found|, i requires 0 <= i < |found| => dict[found[i]])
  }

  /** The state of grouping: the roots found so far in order of appearance, each with its members so far. */
  ghost predicate Grouping(ids: seq<int>, root: map<int, int>, found: seq<int>, dict: map<int, seq<int>>) {
    Rooted(ids, root) && (forall i, j :: 0 <= i < j < |found| ==> found[i] != found[j]) &&
    (forall i :: 0 <= i < |found| ==> found[i] in dict) &&
    (forall r :: r in dict ==> r in found) &&
    (forall r :: r in dict ==> dict[r] == Members(ids, root, r) && dict[r] != []) &&
    (forall j :: 0 <= j < |ids| ==> root[ids[j]] in dict) &&
    (Ascending(ids) ==> ByFirst(Listed(found, dict)))
  }

  /** Groups in the order of their first members. */
  ghost predicate ByFirst(groups: seq<seq<int>>) {
    forall g, h :: 0 <= g < h < |groups| && groups[g] != [] && groups[h] != [] ==> groups[g][0] < groups[h][0]
  }

  lemma {:induction false} NoMembers(ids: seq<int>, root: map<int, int>, r: int)
    requires Rooted(ids, root) && forall j :: 0 <= j < |ids| ==> root[ids[j]] != r
    ensures Members(ids, root, r) == []
  {
    if ids != [] {
      NoMembers(ids[..|ids| - 1], root, r);
    }
  }

  lemma MembersNext(ids: seq<int>, root: map<int, int>, x: int, q: int)
    requires Rooted(ids, root) && x in root
    ensures Rooted(ids + [x], root)
    ensures Members(ids + [x], root, q) == if q == root[x] then Members(ids, root, q) + [x] else Members(ids, root, q)
  {
    assert (ids + [x])[..|ids|] == ids;
  }

  lemma FirstStays(ids: seq<int>, root: map<int, int>, found: seq<int>, dict: map<int, seq<int>>, x: int)
    requires Grouping(ids, root, found, dict) && x in root && Ascending(ids + [x])
    ensures root[x] !in dict ==> ByFirst(Listed(found + [root[x]], dict[root[x] := [x]]))
    ensures root[x] in dict ==> ByFirst(Listed(found, dict[root[x] := dict[root[x]] + [x]]))
  {
    hide Members;
    AscendingFront(ids, x);
    var r, was := root[x], Listed(found, dict);
    forall i | 0 <= i < |found| ensures was[i] != [] && was[i][0] < x {
      var c := found[i];
      assert c in dict && dict[c] == Members(ids, root, c) && dict[c] != [];
      var v := dict[c][0];
      assert v in dict[c];
      MembersAre(ids, root, c, v);
    }
    if r !in dict {
      var more, d := found + [r], dict[r := [x]];
      assert forall i :: 0 <= i < |found| ==> more[i] == found[i] && more[i] in dict;
      var now := Listed(more, d);
      assert forall i :: 0 <= i < |found| ==> now[i] == was[i];
      assert now[|found|] == [x];
    } else {
      var now := Listed(found, dict[r := dict[r] + [x]]);
      assert forall i :: 0 <= i < |found| ==> now[i] != [] && now[i][0] == was[i][0];
    }
  }

  lemma AscendingFront(ids: seq<int>, x: int)
    requires Ascending(ids + [x])
    ensures Ascending(ids) && forall v :: v in ids ==> v < x
  {
    var more := ids + [x];
    forall i, j | 0 <= i < j < |ids| ensures ids[i] < ids[j] {
      assert more[i] < more[j];
    }
    forall v | v in ids ensures v < x {
      var i :| 0 <= i < |ids| && ids[i] == v;
      assert more[i] < more[|ids|];
    }
  }

  /** The first member of a new class opens a group. */
  lemma GroupingNew(ids: seq<int>, root: map<int, int>, found: seq<int>, dict: map<int, seq<int>>, x: int)
    requires Grouping(ids, root, found, dict) && x in root && root[x] !in dict
    ensures Grouping(ids + [x], root, found + [root[x]], dict[root[x] := [x]])
  {
    hide Members, ByFirst, Listed, Ascending;
    var r := root[x];
    if Ascending(ids + [x]) {
      FirstStays(ids, root, found, dict, x);
    }
    NoMembers(ids, root, r);
    forall q | q in dict || q == r
      ensures Members(ids + [x], root, q) == if q == r then [x] else Members(ids, root, q)
    {
      MembersNext(ids, root, x, q);
    }
  }

  /** A further member joins its group. */
  lemma GroupingOld(ids: seq<int>, root: map<int, int>, found: seq<int>, dict: map<int, seq<int>>, x: int)
    requires Grouping(ids, root, found, dict) && x in root && root[x] in dict
    ensures Grouping(ids + [x], root, found, dict[root[x] := dict[root[x]] + [x]])
  {
    hide Members, ByFirst, Listed, Ascending;
    if Ascending(ids + [x]) {
      FirstStays(ids, root, found, dict, x);
    }
    forall q | q in dict
      ensures Members(ids + [x], root, q) == if q == root[x] then Members(ids, root, q) + [x] else Members(ids, root, q)
    {
      MembersNext(ids, root, x, q);
    }
  }

  /** Groups the ids by the root found for each. */
  method GroupByRoot(ids: seq<int>, f: UnionFind) returns (groups: seq<seq<int>>, ghost order: seq<int>)
    requires f.Valid() && f.parent.Keys == set x | x in ids
    modifies f
    ensures f.Valid() && f.root == old(f.root) && Grouped(ids, f.root, order, groups)
  {
    hide IsForest, Grouping;
    var dict: map<int, seq<int>> := map[];
    var found: seq<int> := [];
    ValidKeys(f);
    ghost var root := f.root;
    GroupingNone(root);
    assert ids[..0] == [];
    for i := 0 to |ids|
      invariant f.Valid() && f.root == root && f.parent.Keys == root.Keys == set x | x in ids
      invariant Grouping(ids[..i], root, found, dict)
    {
      var x := ids[i];
      var r := f.Find(x);
      ValidKeys(f);
      assert x in ids && ids[..i + 1] == ids[..i] + [x];
      if r !in dict {
        GroupingNew(ids[..i], root, found, dict, x);
        found := found + [r];
        dict := dict[r := [x]];
      } else {
        GroupingOld(ids[..i], root, found, dict, x);
        dict := dict[r := dict[r] + [x]];
      }
    }
    assert ids[..|ids|] == ids;
    order := found;
    GroupingDone(ids, root, found, dict);
    groups := seq(|found|, i requires 0 <= i < |found| => dict[found[i]]);
    assert groups == Listed(found, dict);
  }

  lemma GroupingNone(root: map<int, int>)
    ensures Grouping([], root, [], map[])
  {
  }

  lemma GroupingDone(ids: seq<int>, root: map<int, int>, found: seq<int>, dict: map<int, seq<int>>)
    requires Grouping(ids, root, found, dict)
    ensures forall i :: 0 <= i < |found| ==> found[i] in dict
    ensures Grouped(ids, root, found, Listed(found, dict))
  {
    forall j | 0 <= j < |ids|
      ensures root[ids[j]] in found
    {
      var v := root[ids[j]];
      assert v in dict;
      assert v in found;
    }
  }

  /** One nonempty group per root, holding the members of its class. */
  ghost predicate Grouped(ids: seq<int>, root: map<int, int>, order: seq<int>, groups: seq<seq<int>>) {
    Rooted(ids, root) && |groups| == |order| && (forall i, j :: 0 <= i < j < |order| ==> order[i] != order[j]) &&
    (forall i :: 0 <= i < |order| ==> groups[i] == Members(ids, root, order[i]) && groups[i] != []) &&
    (forall j :: 0 <= j < |ids| ==> root[ids[j]] in order) && (Ascending(ids) ==> ByFirst(groups))
  }

  lemma GroupsApart(ids: seq<int>, root: map<int, int>, order: seq<int>, groups: seq<seq<int>>)
    requires Ascending(ids) && Grouped(ids, root, order, groups)
    ensures forall i, j :: 0 <= i < j < |groups| ==> Rank(groups[i]) != Rank(groups[j])
  {
    forall i | 0 <= i < |groups|
      ensures groups[i][0] in root && root[groups[i][0]] == order[i]
    {
      MembersExact(ids, root, order[i]);
      assert groups[i][0] in groups[i];
    }
  }

  /** A class of the grouping: its root is listed and it has all members of the class. */
  ghost predicate IsClass(ids: seq<int>, root: map<int, int>, order: seq<int>, c: int, g: seq<int>) {
    Rooted(ids, root) && c in order && g == Members(ids, root, c) && g != []
  }

  lemma SortedGroup(ids: seq<int>, root: map<int, int>, order: seq<int>, groups: seq<seq<int>>, g: seq<int>)
    requires Ascending(ids) && Grouped(ids, root, order, groups) && g in SortBy(Rank, groups)
    ensures exists c :: IsClass(ids, root, order, c, g)
    ensures g != [] && Ascending(g)
  {
    SortMembers(Rank, groups);
    var i :| 0 <= i < |groups| && groups[i] == g;
    MembersExact(ids, root, order[i]);
    assert IsClass(ids, root, order, order[i], g);
  }

  lemma SortedGroupOf(ids: seq<int>, root: map<int, int>, order: seq<int>, groups: seq<seq<int>>, x: int)
    requires Ascending(ids) && Grouped(ids, root, order, groups)
    ensures x in ids <==> InSome(SortBy(Rank, groups), x)
  {
    var r := SortBy(Rank, groups);
    SortMembers(Rank, groups);
    if x in ids {
      var j :| 0 <= j < |ids| && ids[j] == x;
      var i :| 0 <= i < |order| && order[i] == root[x];
      MembersExact(ids, root, order[i]);
      var mine := groups[i];
      assert mine in r && x in mine;
      var g :| 0 <= g < |r| && r[g] == mine;
    }
    if g :| 0 <= g < |r| && x in r[g] {
      assert r[g] in r;
      SortedGroup(ids, root, order, groups, r[g]);
      var c :| IsClass(ids, root, order, c, r[g]);
      MembersExact(ids, root, c);
    }
  }

  lemma SortedGroupsApart(ids: seq<int>, pairs: seq<(int, int)>, root: map<int, int>, order: seq<int>,
                          groups: seq<seq<int>>, g: nat, h: nat, x: int, y: int)
    requires Ascending(ids) && Grouped(ids, root, order, groups) && ClassesAre(root, pairs)
    requires g < |SortBy(Rank, groups)| && h < |SortBy(Rank, groups)|
    requires x in SortBy(Rank, groups)[g] && y in SortBy(Rank, groups)[h]
    ensures g == h <==> Joined(pairs, x, y)
  {
    var r := SortBy(Rank, groups);
    assert r[g] in r && r[h] in r;
    SortedGroup(ids, root, order, groups, r[g]);
    SortedGroup(ids, root, order, groups, r[h]);
    var c :| IsClass(ids, root, order, c, r[g]);
    var d :| IsClass(ids, root, order, d, r[h]);
    MembersExact(ids, root, c);
    MembersExact(ids, root, d);
    GroupsApart(ids, root, order, groups);
    SortStrict(Rank, groups);
    assert g != h ==> Rank(r[g]) != Rank(r[h]);
  }

  /** Sorting the classes yields the components in their specified order. */
  lemma SortedGroupsAreComponents(ids: seq<int>, pairs: seq<(int, int)>, root: map<int, int>, order: seq<int>,
                                  groups: seq<seq<int>>)
    requires Ascending(ids) && Grouped(ids, root, order, groups) && ClassesAre(root, pairs)
    ensures AreComponents(ids, pairs, SortBy(Rank, groups))
  {
    hide Grouped, ClassesAre, Rank, InSome;
    var r := SortBy(Rank, groups);
    forall g | 0 <= g < |r|
      ensures r[g] != [] && Ascending(r[g])
    {
      assert r[g] in r;
      SortedGroup(ids, root, order, groups, r[g]);
    }
    forall x
      ensures x in ids <==> InSome(r, x)
    {
      SortedGroupOf(ids, root, order, groups, x);
    }
    forall g, h, x, y | 0 <= g < |r| && 0 <= h < |r| && x in r[g] && y in r[h]
      ensures g == h <==> Joined(pairs, x, y)
    {
      SortedGroupsApart(ids, pairs, root, order, groups, g, h, x, y);
    }
    GroupsApart(ids, root, order, groups);
    SortStrict(Rank, groups);
  }

  /** Connected components of the graph, largest first. */
  method ConnectedComponents(ids: seq<int>, pairs: seq<(int, int)>) returns (groups: seq<seq<int>>)
    requires Ascending(ids) && Within(ids, pairs)
    ensures AreComponents(ids, pairs, groups)
  {
    hide IsForest, ClassesAre, AreComponents, Grouped;
    var f := JoinAll(ids, pairs);
    var raw, order := GroupByRoot(ids, f);
    SortedGroupsAreComponents(ids, pairs, f.root, order, raw);
    groups := SortBy(Rank, raw);
  }

  /** One component: there are ids, and any two are connected. */
  ghost predicate SingleComponent(ids: seq<int>, pairs: seq<(int, int)>) {
    ids != [] && forall x, y :: x in ids && y in ids ==> Joined(pairs, x, y)
  }

  lemma OneGroup(ids: seq<int>, pairs: seq<(int, int)>, groups: seq<seq<int>>)
    requires AreComponents(ids, pairs, groups)
    ensures |groups| == 0 <==> ids == []
    ensures |groups| == 1 <==> SingleComponent(ids, pairs)
  {
    if ids != [] {
      var x := ids[0];
      assert x in ids;
      var g :| 0 <= g < |groups| && x in groups[g];
    }
    if |groups| >= 1 {
      assert groups[0][0] in groups[0];
      assert groups[0][0] in ids && ids != [];
    }
    if |groups| == 1 {
      forall x, y | x in ids && y in ids
        ensures Joined(pairs, x, y)
      {
        assert x in groups[0] && y in groups[0];
      }
      assert SingleComponent(ids, pairs);
    }
    if |groups| >= 2 {
      var x, y := groups[0][0], groups[1][0];
      assert x in groups[0] && y in groups[1];
      assert x in ids;
      assert y in ids;
      assert !Joined(pairs, x, y);
      assert !SingleComponent(ids, pairs);
    }
  }

  /** The validator's own count of components: the number of distinct roots. */
  method CountComponents(ids: seq<int>, pairs: seq<(int, int)>) returns (n: nat)
    requires Within(ids, pairs)
    ensures n == 1 <==> SingleComponent(ids, pairs)
    ensures forall groups :: AreComponents(ids, pairs, groups) ==> n == |groups|
  {
    hide IsForest, ClassesAre, AreComponents;
    var f := JoinAll(ids, pairs);
    var roots: set<int> := {};
    ValidKeys(f);
    ghost var root := f.root;
    assert forall j :: 0 <= j < |ids| ==> ids[j] in ids && ids[j] in root;
    for i := 0 to |ids|
      invariant f.Valid() && f.root == root && f.parent.Keys == root.Keys == set x | x in ids
      invariant roots == set j | 0 <= j < i :: root[ids[j]]
    {
      var r := f.Find(ids[i]);
      ValidKeys(f);
      roots := roots + {r};
    }
    n := |roots|;
    CountIsOne(ids, pairs, root, roots);
    forall groups | AreComponents(ids, pairs, groups) ensures n == |groups| {
      RootsAreGroups(ids, pairs, root, roots, groups);
    }
  }

  /** There are as many roots as components. */
  lemma RootsAreGroups(ids: seq<int>, pairs: seq<(int, int)>, root: map<int, int>, roots: set<int>,
                       groups: seq<seq<int>>)
    requires Rooted(ids, root) && ClassesAre(root, pairs) && AreComponents(ids, pairs, groups)
    requires roots == set j | 0 <= j < |ids| :: root[ids[j]]
    ensures |roots| == |groups|
  {
    forall g | 0 <= g < |groups| ensures groups[g][0] in root && root[groups[g][0]] in roots {
      var x := groups[g][0];
      assert x in groups[g] && InSome(groups, x);
      var j :| 0 <= j < |ids| && ids[j] == x;
    }
    var s := seq(|groups|, g requires 0 <= g < |groups| => root[groups[g][0]]);
    forall g, h | 0 <= g < h < |groups| ensures s[g] != s[h] {
      assert groups[g][0] in groups[g] && groups[h][0] in groups[h];
    }
    forall r | r in roots ensures r in Elements(s) {
      var j :| 0 <= j < |ids| && root[ids[j]] == r;
      var x := ids[j];
      assert x in ids && InSome(groups, x);
      var g :| 0 <= g < |groups| && x in groups[g];
      assert groups[g][0] in groups[g];
      assert s[g] == r;
    }
    assert Elements(s) == roots;
    CountUnique(s);
  }

  lemma SoleMember(s: set<int>)
    requires |s| == 1
    ensures exists z :: z in s && s == {z}
  {
    assert (forall z :: z !in s) ==> s == {};
    var z :| z in s;
    assert |s - {z}| == 0;
    assert s == {z};
  }

  lemma CountIsOne(ids: seq<int>, pairs: seq<(int, int)>, root: map<int, int>, roots: set<int>)
    requires Rooted(ids, root) && ClassesAre(root, pairs)
    requires roots == set j | 0 <= j < |ids| :: root[ids[j]]
    ensures |roots| == 1 <==> SingleComponent(ids, pairs)
  {
    forall x | x in ids
      ensures x in root && root[x] in roots
    {
      var j :| 0 <= j < |ids| && ids[j] == x;
      assert root[ids[j]] in roots;
    }
    if |roots| == 1 {
      SoleMember(roots);
    }
    if SingleComponent(ids, pairs) {
      assert ids[0] in ids;
      forall j | 0 <= j < |ids|
        ensures root[ids[j]] == root[ids[0]]
      {
        assert Joined(pairs, ids[j], ids[0]);
      }
      assert roots == {root[ids[0]]};
    }
  }
}
