/** Matching the contour runs of two neighbours (tools/map_pipeline/smooth.py): which run of one contour is paired
    with which run of the other, and the shared chain both then follow. Which junction groups a run ends in, how far
    apart two runs' midpoints are, and the smoothing itself are arbitrary functions of the runs. */
module Pairing {
  import opened Optional
  import Sorting

  type Point = (real, real)

  type Line = seq<Point>

  /** The canonical ladder a matched pair shares. */
  class Chain {
    const levels: seq<Line>

    constructor (levels: seq<Line>)
      ensures this.levels == levels
    {
      this.levels := levels;
    }
  }

  /** One labelled run of a contour: its node, the neighbour it faces, its polyline, whether it is a whole ring. */
  class Arc {
    const node: int
    const facing: Option<int>
    const pts: Line
    const whole: bool
    var partner: Arc?
    var chain: Chain?
    var levels: seq<Line>

    constructor (node: int, facing: Option<int>, pts: Line, whole: bool)
      ensures this.node == node && this.facing == facing && this.pts == pts && this.whole == whole
      ensures partner == null && chain == null && levels == []
    {
      this.node, this.facing, this.pts, this.whole := node, facing, pts, whole;
      partner, chain, levels := null, null, [];
    }
  }

  ghost predicate Distinct(arcs: seq<Arc>) {
    forall i, j :: 0 <= i < j < |arcs| ==> arcs[i] != arcs[j]
  }

  ghost predicate Apart(a: seq<Arc>, b: seq<Arc>) {
    forall x :: !(x in a && x in b)
  }

  // ------------------------------------------------------- one pair of nodes

  /** Partners are mutual and sit on opposite sides. */
  ghost predicate Coupled(a: seq<Arc>, b: seq<Arc>)
    reads a, b
  {
    && (forall x :: x in a && x.partner != null ==> x.partner in b && x.partner.partner == x)
    && (forall y :: y in b && y.partner != null ==> y.partner in a && y.partner.partner == y)
  }

  /** Both runs end in the same two junction groups. */
  predicate SameEnds(ends: Arc -> set<int>, x: Arc, y: Arc) {
    |ends(x)| == 2 && ends(x) == ends(y)
  }

  ghost predicate ByEnds(ends: Arc -> set<int>, x: Arc)
    reads x
  {
    x.partner != null && SameEnds(ends, x, x.partner)
  }

  /** No two runs with the same two junction groups are both left over. */
  ghost predicate EndsExhausted(ends: Arc -> set<int>, a: seq<Arc>, b: seq<Arc>)
    reads a, b
  {
    forall x, y :: x in a && y in b && SameEnds(ends, x, y) ==> x.partner != null || y.partner != null
  }

  /** The run has a partner at least as close as g. */
  ghost predicate Settled(gap: (Arc, Arc) -> real, x: Arc, g: real)
    reads x
  {
    x.partner != null && gap(x, x.partner) <= g
  }

  /** The leftover matching is stable: of two runs within eps, not paired by their ends, one has a partner at least as
      close as they are to each other. */
  ghost predicate Stable(ends: Arc -> set<int>, gap: (Arc, Arc) -> real, eps: real, a: seq<Arc>, b: seq<Arc>)
    reads a, b
  {
    forall x, y :: x in a && y in b && !ByEnds(ends, x) && !ByEnds(ends, y) && gap(x, y) <= eps ==>
      Settled(gap, x, gap(x, y)) || Settled(gap, y, gap(x, y))
  }

  ghost predicate Symmetric(gap: (Arc, Arc) -> real, a: seq<Arc>, b: seq<Arc>) {
    forall x, y :: x in a && y in b ==> gap(x, y) == gap(y, x)
  }

  method Join(x: Arc, y: Arc)
    modifies {x, y}`partner
    ensures x.partner == y && (x != y ==> y.partner == x)
  {
    x.partner := y;
    y.partner := x;
  }

  /** The first unused run of the other side with the same two junction groups. */
  method FirstSameEnds(ends: Arc -> set<int>, x: Arc, b: seq<Arc>, used: set<nat>) returns (j: nat)
    ensures j <= |b|
    ensures j < |b| ==> j !in used && SameEnds(ends, x, b[j])
    ensures forall k :: 0 <= k < j && k !in used ==> !SameEnds(ends, x, b[k])
  {
    j := 0;
    while j < |b|
      invariant j <= |b|
      invariant forall k :: 0 <= k < j && k !in used ==> !SameEnds(ends, x, b[k])
    {
      if j !in used && ends(b[j]) == ends(x) && |ends(b[j])| == 2 {
        return;
      }
      j := j + 1;
    }
  }

  /** Phase 1: identical junction groups at both ends. */
  method PairByEnds(ends: Arc -> set<int>, a: seq<Arc>, b: seq<Arc>) returns (used: set<nat>)
    requires Distinct(a) && Distinct(b) && Apart(a, b)
    requires forall x :: x in a || x in b ==> x.partner == null
    modifies (set x | x in a || x in b)`partner
    ensures Coupled(a, b) && EndsExhausted(ends, a, b)
    ensures forall x :: (x in a || x in b) && x.partner != null ==> ByEnds(ends, x)
    ensures forall j :: 0 <= j < |b| ==> (j in used <==> b[j].partner != null)
  {
    used := {};
    for i := 0 to |a|
      invariant Coupled(a, b)
      invariant forall k :: i <= k < |a| ==> a[k].partner == null
      invariant forall x :: (x in a || x in b) && x.partner != null ==> ByEnds(ends, x)
      invariant forall j :: 0 <= j < |b| ==> (j in used <==> b[j].partner != null)
      invariant forall k, y :: 0 <= k < i && y in b && SameEnds(ends, a[k], y) ==>
                  a[k].partner != null || y.partner != null
    {
      if |ends(a[i])| < 2 {
        continue;
      }
      var j := FirstSameEnds(ends, a[i], b, used);
      if j < |b| {
        Join(a[i], b[j]);
        used := used + {j};
      }
    }
  }

  /** The closest two of the runs left, the first such in order, if any are within eps. */
  method Closest(gap: (Arc, Arc) -> real, eps: real, a: seq<Arc>, b: seq<Arc>) returns (found: bool, ai: nat, bi: nat)
    ensures found ==> ai < |a| && bi < |b| && gap(a[ai], b[bi]) <= eps
    ensures found ==> forall i, j :: 0 <= i < |a| && 0 <= j < |b| ==> gap(a[ai], b[bi]) <= gap(a[i], b[j])
    ensures !found ==> forall i, j :: 0 <= i < |a| && 0 <= j < |b| ==> gap(a[i], b[j]) > eps
  {
    found, ai, bi := false, 0, 0;
    for i := 0 to |a|
      invariant found ==> ai < |a| && bi < |b| && gap(a[ai], b[bi]) <= eps
      invariant found ==> forall k, j :: 0 <= k < i && 0 <= j < |b| ==> gap(a[ai], b[bi]) <= gap(a[k], b[j])
      invariant !found ==> forall k, j :: 0 <= k < i && 0 <= j < |b| ==> gap(a[k], b[j]) > eps
    {
      for j := 0 to |b|
        invariant found ==> ai < |a| && bi < |b| && gap(a[ai], b[bi]) <= eps
        invariant found ==> forall k, m :: 0 <= k < i && 0 <= m < |b| ==> gap(a[ai], b[bi]) <= gap(a[k], b[m])
        invariant found ==> forall m :: 0 <= m < j ==> gap(a[ai], b[bi]) <= gap(a[i], b[m])
        invariant !found ==> forall k, m :: 0 <= k < i && 0 <= m < |b| ==> gap(a[k], b[m]) > eps
        invariant !found ==> forall m :: 0 <= m < j ==> gap(a[i], b[m]) > eps
      {
        var d := gap(a[i], b[j]);
        if d <= eps && (!found || d < gap(a[ai], b[bi])) {
          found, ai, bi := true, i, j;
        }
      }
    }
  }

  /** The runs of a side that have no partner yet. */
  ghost predicate Left(rest: seq<Arc>, side: seq<Arc>)
    reads side
  {
    && Distinct(rest)
    && (forall x :: x in rest ==> x in side && x.partner == null)
    && (forall x :: x in side && x.partner == null ==> x in rest)
  }

  function Without(s: seq<Arc>, i: nat): seq<Arc>
    requires i < |s|
  {
    s[..i] + s[i + 1..]
  }

  lemma WithoutIs(s: seq<Arc>, i: nat)
    requires i < |s| && Distinct(s)
    ensures Distinct(Without(s, i)) && forall x :: x in Without(s, i) <==> x in s && x != s[i]
  {
    var r := Without(s, i);
    assert forall k :: 0 <= k < |r| ==> r[k] == s[if k < i then k else k + 1];
    forall x | x in s && x != s[i] ensures x in r {
      var k :| 0 <= k < |s| && s[k] == x;
      assert r[if k < i then k else k - 1] == x;
    }
  }

  /** Two runs both left over, or one of them already paired at least as close. */
  ghost predicate Fair(gap: (Arc, Arc) -> real, startA: seq<Arc>, startB: seq<Arc>, restA: seq<Arc>, restB: seq<Arc>)
    reads startA, startB
  {
    forall x, y :: x in startA && y in startB && !(x in restA && y in restB) ==>
      Settled(gap, x, gap(x, y)) || Settled(gap, y, gap(x, y))
  }

  /** Phase 2: greedy proximity for what is left. */
  method PairByGap(gap: (Arc, Arc) -> real, eps: real, a: seq<Arc>, b: seq<Arc>, startA: seq<Arc>, startB: seq<Arc>)
    requires Distinct(a) && Distinct(b) && Apart(a, b) && Symmetric(gap, a, b)
    requires Coupled(a, b) && Left(startA, a) && Left(startB, b)
    modifies (set x | x in a || x in b)`partner
    ensures Coupled(a, b)
    ensures forall x :: (x in a || x in b) && old(x.partner) != null ==> x.partner == old(x.partner)
    ensures forall x, y :: x in startA && y in startB && gap(x, y) <= eps ==>
              Settled(gap, x, gap(x, y)) || Settled(gap, y, gap(x, y))
  {
    var restA, restB := startA, startB;
    while restA != [] && restB != []
      invariant Coupled(a, b) && Left(restA, a) && Left(restB, b)
      invariant forall x :: (x in a || x in b) && old(x.partner) != null ==> x.partner == old(x.partner)
      invariant Fair(gap, startA, startB, restA, restB)
      decreases |restA|
    {
      var found, ai, bi := Closest(gap, eps, restA, restB);
      if !found {
        break;
      }
      restA, restB := PairOne(gap, a, b, startA, startB, restA, restB, ai, bi);
    }
  }

  /** Pairs the two closest runs and takes them off the lists. */
  method PairOne(gap: (Arc, Arc) -> real, a: seq<Arc>, b: seq<Arc>, ghost startA: seq<Arc>, ghost startB: seq<Arc>,
                 restA: seq<Arc>, restB: seq<Arc>, ai: nat, bi: nat)
    returns (nextA: seq<Arc>, nextB: seq<Arc>)
    requires Apart(a, b) && Symmetric(gap, a, b) && Coupled(a, b) && Left(restA, a) && Left(restB, b)
    requires (forall x :: x in startA ==> x in a) && forall y :: y in startB ==> y in b
    requires ai < |restA| && bi < |restB| && Fair(gap, startA, startB, restA, restB)
    requires forall i, j :: 0 <= i < |restA| && 0 <= j < |restB| ==>
               gap(restA[ai], restB[bi]) <= gap(restA[i], restB[j])
    modifies {restA[ai], restB[bi]}`partner
    ensures Coupled(a, b) && Left(nextA, a) && Left(nextB, b) && |nextA| < |restA|
    ensures Fair(gap, startA, startB, nextA, nextB)
  {
    var x, y := restA[ai], restB[bi];
    assert x in a && y in b;
    Join(x, y);
    WithoutIs(restA, ai);
    WithoutIs(restB, bi);
    nextA, nextB := Without(restA, ai), Without(restB, bi);
  }

  method Unpaired(side: seq<Arc>) returns (rest: seq<Arc>)
    requires Distinct(side)
    ensures Left(rest, side)
  {
    rest := [];
    for i := 0 to |side|
      invariant Distinct(rest)
      invariant forall x :: x in rest ==> x in side[..i] && x.partner == null
      invariant forall k :: 0 <= k < i && side[k].partner == null ==> side[k] in rest
    {
      assert side[i] !in side[..i];
      if side[i].partner == null {
        rest := rest + [side[i]];
      }
    }
  }

  method Unused(side: seq<Arc>, used: set<nat>) returns (rest: seq<Arc>)
    requires Distinct(side) && forall j :: 0 <= j < |side| ==> (j in used <==> side[j].partner != null)
    ensures Left(rest, side)
  {
    rest := [];
    for i := 0 to |side|
      invariant Distinct(rest)
      invariant forall x :: x in rest ==> x in side[..i] && x.partner == null
      invariant forall k :: 0 <= k < i && side[k].partner == null ==> side[k] in rest
    {
      assert side[i] !in side[..i];
      if i !in used {
        rest := rest + [side[i]];
      }
    }
  }

  /** Both phases on the two sides of one pair of nodes. */
  method MatchSides(ends: Arc -> set<int>, gap: (Arc, Arc) -> real, eps: real, a: seq<Arc>, b: seq<Arc>)
    requires Distinct(a) && Distinct(b) && Apart(a, b) && Symmetric(gap, a, b)
    requires forall x :: x in a || x in b ==> x.partner == null
    modifies (set x | x in a || x in b)`partner
    ensures Coupled(a, b) && EndsExhausted(ends, a, b) && Stable(ends, gap, eps, a, b)
  {
    var used := PairByEnds(ends, a, b);
    var restA := Unpaired(a);
    var restB := Unused(b, used);
    ghost var early := set x | (x in a || x in b) && x.partner != null;
    PairByGap(gap, eps, a, b, restA, restB);
    assert forall x :: x in early ==> ByEnds(ends, x);
  }

  // --------------------------------------------------------------- all pairs

  /** The runs worth matching: labelled, and more than a point. */
  predicate Labelled(x: Arc) {
    x.facing != None && |x.pts| >= 2
  }

  function PairOf(x: Arc): (int, int)
    requires Labelled(x)
  {
    var other := x.facing.value;
    if x.node <= other then (x.node, other) else (other, x.node)
  }

  /** The runs of one side of a pair, in the order of the contours. */
  function Side(arcs: seq<Arc>, pair: (int, int), first: bool): (r: seq<Arc>)
    ensures forall x :: x in r ==> x in arcs && Labelled(x) && PairOf(x) == pair && (x.node == pair.0 <==> first)
  {
    if arcs == [] then []
    else
      var x := arcs[|arcs| - 1];
      Side(arcs[..|arcs| - 1], pair, first) +
      if Labelled(x) && PairOf(x) == pair && (x.node == pair.0 <==> first) then [x] else []
  }

  lemma SideNext(arcs: seq<Arc>, i: nat, pair: (int, int), first: bool)
    requires i < |arcs|
    ensures var x := arcs[i];
            Side(arcs[..i + 1], pair, first) ==
              if Labelled(x) && PairOf(x) == pair && (x.node == pair.0 <==>
                first) then Side(arcs[..i], pair, first) + [x]
              else Side(arcs[..i], pair, first)
  {
    assert arcs[..i + 1][..i] == arcs[..i];
  }

  lemma {:induction false} SideAll(arcs: seq<Arc>, pair: (int, int), first: bool, x: Arc)
    requires x in arcs && Labelled(x) && PairOf(x) == pair && (x.node == pair.0 <==> first)
    ensures x in Side(arcs, pair, first)
  {
    var n := |arcs| - 1;
    assert arcs == arcs[..n] + [arcs[n]];
    if x in arcs[..n] {
      SideAll(arcs[..n], pair, first, x);
    }
  }

  lemma {:induction false} SideDistinct(arcs: seq<Arc>, pair: (int, int), first: bool)
    requires Distinct(arcs)
    ensures Distinct(Side(arcs, pair, first))
  {
    if arcs != [] {
      var n := |arcs| - 1;
      SideDistinct(arcs[..n], pair, first);
      assert forall x :: x in Side(arcs[..n], pair, first) ==> x in arcs[..n] && x != arcs[n];
    }
  }

  /** Two runs facing each other's nodes. */
  predicate Opposite(x: Arc, y: Arc) {
    Labelled(x) && Labelled(y) && x.node != y.node && x.facing == Some(y.node) && y.facing == Some(x.node)
  }

  /** The symmetric involution: partners are mutual and face each other's nodes. */
  ghost predicate Matched(arcs: seq<Arc>)
    reads arcs
  {
    forall x :: x in arcs && x.partner != null ==> x.partner in arcs && x.partner.partner == x && Opposite(x, x.partner)
  }

  /** Two opposite runs: not both left over with the same ends, and not closer to each other than to the partners they
      have. */
  ghost predicate WellMatched(ends: Arc -> set<int>, gap: (Arc, Arc) -> real, eps: real, x: Arc, y: Arc)
    reads x, y
  {
    && (SameEnds(ends, x, y) ==> x.partner != null || y.partner != null)
    && (!ByEnds(ends, x) && !ByEnds(ends, y) && gap(x, y) <= eps ==>
          Settled(gap, x, gap(x, y)) || Settled(gap, y, gap(x, y)))
  }

  ghost predicate AllWellMatched(ends: Arc -> set<int>, gap: (Arc, Arc) -> real, eps: real, arcs: seq<Arc>,
                                 pairs: set<(int, int)>)
    reads arcs
  {
    forall x, y :: x in arcs && y in arcs && Opposite(x, y) && PairOf(x) in pairs ==> WellMatched(ends, gap, eps, x, y)
  }

  /** Runs outside the pairs treated so far have no partner. */
  ghost predicate Untouched(arcs: seq<Arc>, pairs: set<(int, int)>)
    reads arcs
  {
    forall x :: x in arcs && !(Labelled(x) && PairOf(x) in pairs) ==> x.partner == null
  }

  lemma SidesOf(arcs: seq<Arc>, pair: (int, int), x: Arc, y: Arc)
    requires x in arcs && y in arcs && Opposite(x, y) && PairOf(x) == pair
    ensures PairOf(y) == pair
    ensures if x.node == pair.0 then x in Side(arcs, pair, true) && y in Side(arcs, pair, false)
            else y in Side(arcs, pair, true) && x in Side(arcs, pair, false)
  {
    SideAll(arcs, pair, x.node == pair.0, x);
    SideAll(arcs, pair, y.node == pair.0, y);
  }

  /** Treating one more pair keeps what the earlier ones have. */
  method MatchOne(ends: Arc -> set<int>, gap: (Arc, Arc) -> real, eps: real, ghost arcs: seq<Arc>, ghost pair: (int,
                  int),
                  a: seq<Arc>, b: seq<Arc>, ghost pairs: set<(int, int)>)
    requires a == Side(arcs, pair, true) && b == Side(arcs, pair, false)
    requires Distinct(arcs) && Symmetric(gap, arcs, arcs) && pair !in pairs
    requires Matched(arcs) && Untouched(arcs, pairs) && AllWellMatched(ends, gap, eps, arcs, pairs)
    modifies (set x | x in arcs)`partner
    ensures Matched(arcs) && Untouched(arcs, pairs + {pair}) && AllWellMatched(ends, gap, eps, arcs, pairs + {pair})
  {
    hide Side, Stable, EndsExhausted, WellMatched;
    SideDistinct(arcs, pair, true);
    SideDistinct(arcs, pair, false);
    MatchSides(ends, gap, eps, a, b);
    assert forall x :: x in arcs && !(Labelled(x) && PairOf(x) == pair) ==> x.partner == old(x.partner);
    forall x | x in arcs && x.partner != null ensures x.partner in arcs && x.partner.partner == x &&
      Opposite(x, x.partner) {
      if Labelled(x) && PairOf(x) == pair {
        SideAll(arcs, pair, x.node == pair.0, x);
      } else {
        assert old(x.partner in arcs && x.partner.partner == x) && Opposite(x, x.partner);
      }
    }
    PairGained(ends, gap, eps, arcs, pair, a, b);
    forall x, y | x in arcs && y in arcs && Opposite(x, y) &&
      PairOf(x) in pairs + {pair} ensures WellMatched(ends, gap, eps, x, y) {
      if PairOf(x) != pair {
        assert PairOf(y) == PairOf(x);
        assert old(WellMatched(ends, gap, eps, x, y));
      }
    }
  }

  lemma PairGained(ends: Arc -> set<int>, gap: (Arc, Arc) -> real, eps: real, arcs: seq<Arc>, pair: (int, int),
                   a: seq<Arc>, b: seq<Arc>)
    requires a == Side(arcs, pair, true) && b == Side(arcs, pair, false) && Symmetric(gap, arcs, arcs)
    requires EndsExhausted(ends, a, b) && Stable(ends, gap, eps, a, b)
    ensures forall x, y :: x in arcs && y in arcs && Opposite(x, y) && PairOf(x) == pair ==>
              WellMatched(ends, gap, eps, x, y)
  {
    hide Side;
    forall x, y | x in arcs && y in arcs && Opposite(x, y) &&
      PairOf(x) == pair ensures WellMatched(ends, gap, eps, x, y) {
      SidesOf(arcs, pair, x, y);
      assert gap(x, y) == gap(y, x);
    }
  }

  type Sides = map<(int, int), (seq<Arc>, seq<Arc>)>

  /** The runs of every pair met so far, by side. */
  ghost predicate Collected(sides: Sides, arcs: seq<Arc>) {
    && (forall p :: p in sides ==> sides[p] == (Side(arcs, p, true), Side(arcs, p, false)))
    && (forall p :: p !in sides ==> Side(arcs, p, true) == [] && Side(arcs, p, false) == [])
  }

  function Collect(sides: Sides, x: Arc): Sides
    requires Labelled(x)
  {
    var pair := PairOf(x);
    var (a, b) := if pair in sides then sides[pair] else ([], []);
    sides[pair := if x.node == pair.0 then (a + [x], b) else (a, b + [x])]
  }

  lemma CollectNext(sides: Sides, arcs: seq<Arc>, i: nat)
    requires i < |arcs| && Collected(sides, arcs[..i])
    ensures Labelled(arcs[i]) ==> Collected(Collect(sides, arcs[i]), arcs[..i + 1])
    ensures !Labelled(arcs[i]) ==> Collected(sides, arcs[..i + 1])
  {
    hide Side;
    forall p, first ensures Side(arcs[..i + 1], p, first) ==
        if Labelled(arcs[i]) && PairOf(arcs[i]) == p && (arcs[i].node == p.0 <==>
          first) then Side(arcs[..i], p, first) + [arcs[i]]
        else Side(arcs[..i], p, first)
    {
      SideNext(arcs, i, p, first);
    }
  }

  /** The labelled runs of every pair, and the pairs in the order met. */
  method GroupByPair(arcs: seq<Arc>) returns (sides: Sides, keys: seq<(int, int)>)
    ensures Collected(sides, arcs)
    ensures Sorting.Unique(keys) && forall p :: p in keys <==> p in sides
  {
    hide Collected;
    sides, keys := map[], [];
    assert Collected(sides, []) by {
      NothingCollected();
    }
    assert arcs[..0] == [];
    for i := 0 to |arcs|
      invariant Collected(sides, arcs[..i])
      invariant Sorting.Unique(keys) && forall p :: p in keys <==> p in sides
    {
      CollectNext(sides, arcs, i);
      if !Labelled(arcs[i]) {
        continue;
      }
      if PairOf(arcs[i]) !in sides {
        keys := keys + [PairOf(arcs[i])];
      }
      sides := Collect(sides, arcs[i]);
    }
    assert arcs[..|arcs|] == arcs;
  }

  lemma NothingCollected()
    ensures Collected(map[], [])
  {
  }

  lemma CollectedAt(sides: Sides, arcs: seq<Arc>, p: (int, int))
    requires Collected(sides, arcs)
    ensures p in sides ==> sides[p].0 == Side(arcs, p, true) && sides[p].1 == Side(arcs, p, false)
    ensures p !in sides ==> Side(arcs, p, true) == [] && Side(arcs, p, false) == []
  {
  }

  lemma NobodyMatched(ends: Arc -> set<int>, gap: (Arc, Arc) -> real, eps: real, arcs: seq<Arc>)
    requires forall x :: x in arcs ==> x.partner == null
    ensures Matched(arcs) && Untouched(arcs, {}) && AllWellMatched(ends, gap, eps, arcs, {})
  {
  }

  method MatchInOrder(ends: Arc -> set<int>, gap: (Arc, Arc) -> real, eps: real, ghost arcs: seq<Arc>, sides: Sides,
                      order: seq<(int, int)>)
    returns (ghost pairs: set<(int, int)>)
    requires Distinct(arcs) && Symmetric(gap, arcs, arcs) && Collected(sides, arcs)
    requires Sorting.Unique(order) && forall p :: p in order ==> p in sides
    requires forall x :: x in arcs ==> x.partner == null
    modifies (set x | x in arcs)`partner
    ensures Matched(arcs) && AllWellMatched(ends, gap, eps, arcs, pairs) && forall p :: p in order ==> p in pairs
  {
    hide Matched, Untouched, AllWellMatched, Collected, Side, Symmetric, Distinct;
    pairs := {};
    NobodyMatched(ends, gap, eps, arcs);
    for i := 0 to |order|
      invariant forall p :: p in pairs <==> p in order[..i]
      invariant Matched(arcs) && Untouched(arcs, pairs) && AllWellMatched(ends, gap, eps, arcs, pairs)
    {
      var p := order[i];
      assert p in order && p !in order[..i];
      CollectedAt(sides, arcs, p);
      MatchOne(ends, gap, eps, arcs, p, sides[p].0, sides[p].1, pairs);
      pairs := pairs + {p};
    }
  }

  /** Every pair in order. Afterwards partner is a symmetric involution between runs facing each other's nodes, and no
      two opposite runs were better left for each other. */
  method MatchPairs(ends: Arc -> set<int>, gap: (Arc, Arc) -> real, eps: real, arcs: seq<Arc>)
    requires Distinct(arcs) && Symmetric(gap, arcs, arcs)
    requires forall x :: x in arcs ==> x.partner == null
    modifies (set x | x in arcs)`partner
    ensures Matched(arcs)
    ensures forall x, y :: x in arcs && y in arcs && Opposite(x, y) ==> WellMatched(ends, gap, eps, x, y)
  {
    hide WellMatched, Matched, Symmetric, Distinct, Collected, Side;
    var sides, keys := GroupByPair(arcs);
    var order := Sorting.SortBy(PairKey, keys);
    SortedKeys(keys);
    ghost var pairs := MatchInOrder(ends, gap, eps, arcs, sides, order);
    forall x, y | x in arcs && y in arcs && Opposite(x, y) ensures WellMatched(ends, gap, eps, x, y) {
      SideAll(arcs, PairOf(x), x.node == PairOf(x).0, x);
      CollectedAt(sides, arcs, PairOf(x));
    }
  }

  function PairKey(p: (int, int)): (int, int) {
    p
  }

  lemma SortedKeys(keys: seq<(int, int)>)
    requires Sorting.Unique(keys)
    ensures var order := Sorting.SortBy(PairKey, keys);
            Sorting.Unique(order) && forall p :: p in order <==> p in keys
  {
    Sorting.SortStrict(PairKey, keys);
    Sorting.SortMembers(PairKey, keys);
  }

  /** Two unmatched opposite runs are further apart than eps. */
  lemma UnmatchedApart(ends: Arc -> set<int>, gap: (Arc, Arc) -> real, eps: real, x: Arc, y: Arc)
    requires WellMatched(ends, gap, eps, x, y) && x.partner == null && y.partner == null
    ensures gap(x, y) > eps && !SameEnds(ends, x, y)
  {
  }

  // ------------------------------------------------------------ shared chains

  /** A whole ring pairs only with a whole ring; other pairs are undone on both sides. */
  method DropMixed(arcs: seq<Arc>)
    requires Matched(arcs)
    modifies (set x | x in arcs)`partner
    ensures Matched(arcs)
    ensures forall x :: x in arcs ==>
              x.partner == if old(x.partner) != null && x.whole != old(x.partner).whole then null else old(x.partner)
  {
    for i := 0 to |arcs|
      invariant Matched(arcs)
      invariant forall x :: x in arcs ==>
                  x.partner == old(x.partner) || (x.partner == null && old(x.partner) != null &&
                    x.whole != old(x.partner).whole)
      invariant forall k :: 0 <= k < i && arcs[k].partner != null ==> arcs[k].whole == arcs[k].partner.whole
    {
      var x := arcs[i];
      var other := x.partner;
      if other != null && x.whole != other.whole {
        x.partner := null;
        other.partner := null;
      }
    }
  }

  const LEVELS := 3

  function Reversed(s: Line): Line {
    seq(|s|, i requires 0 <= i < |s| => s[|s| - 1 - i])
  }

  function Distance2(p: Point, q: Point): real {
    (p.0 - q.0) * (p.0 - q.0) + (p.1 - q.1) * (p.1 - q.1)
  }

  /** The shared line turned to the run's own direction, between the run's own ends. */
  function Fitted(pts: Line, shared: Line): Line
    requires pts != []
  {
    var turned := if shared != [] &&
      Distance2(pts[0], shared[0]) > Distance2(pts[0], shared[|shared| - 1]) then Reversed(shared) else shared;
    [pts[0]] + turned + [pts[|pts| - 1]]
  }

  function FittedAll(pts: Line, levels: seq<Line>): (r: seq<Line>)
    requires pts != []
    ensures |r| == |levels| && forall i :: 0 <= i < |r| ==> r[i] == Fitted(pts, levels[i])
  {
    seq(|levels|, i requires 0 <= i < |levels| => Fitted(pts, levels[i]))
  }

  /** The run follows its pair's chain: whole rings take it as it is, open runs fit it between their ends. */
  ghost predicate Follows(x: Arc)
    reads x
  {
    x.chain != null && |x.chain.levels| == LEVELS && x.pts != [] &&
    x.levels == if x.whole then x.chain.levels else FittedAll(x.pts, x.chain.levels)
  }

  ghost predicate Shares(x: Arc)
    reads x, x.partner
  {
    x.partner != null && x.partner.partner == x && x.chain == x.partner.chain && x.whole == x.partner.whole &&
    Follows(x) && Follows(x.partner)
  }

  /** The line of level l: the smoothed one when it is long enough and, for a whole ring, not flat; otherwise what the
      run itself gives. An open pair never has less than two points. */
  predicate IsRung(smooth: (Line, Line, nat) -> Line, flat: Line -> bool, a: Arc, b: Arc, l: nat, line: Line)
    requires a.pts != []
  {
    var s := smooth(a.pts, b.pts, l);
    if a.whole then line == if |s| >= 3 && !flat(s) then s else a.pts
    else |line| >= 2 && line == if |s| >= 2 then s else [a.pts[0], a.pts[|a.pts| - 1]]
  }

  /** The ladder of one pair; a level too short, or flat once on the grid, falls back to the run's own line or its ends.
      */
  method BuildLadder(smooth: (Line, Line, nat) -> Line, flat: Line -> bool, a: Arc, b: Arc) returns (levels: seq<Line>)
    requires a.pts != []
    ensures |levels| == LEVELS
    ensures forall l :: 0 <= l < LEVELS ==> IsRung(smooth, flat, a, b, l, levels[l])
  {
    levels := [];
    for l := 0 to LEVELS
      invariant |levels| == l
      invariant forall m :: 0 <= m < l ==> IsRung(smooth, flat, a, b, m, levels[m])
    {
      var shared := smooth(a.pts, b.pts, l);
      if a.whole && (|shared| < 3 || flat(shared)) {
        shared := a.pts;
      } else if !a.whole && |shared| < 2 {
        shared := [a.pts[0], a.pts[|a.pts| - 1]];
      }
      levels := levels + [shared];
    }
  }

  /** The chain of a holds the lines of the ladder built from a and then b. */
  ghost predicate Climbs(smooth: (Line, Line, nat) -> Line, flat: Line -> bool, a: Arc, b: Arc)
    reads a
  {
    a.chain != null && a.pts != [] && |a.chain.levels| == LEVELS &&
    forall l :: 0 <= l < LEVELS ==> IsRung(smooth, flat, a, b, l, a.chain.levels[l])
  }

  /** Run x is listed before any listing of y. */
  ghost predicate ListedFirst(arcs: seq<Arc>, x: Arc, y: Arc) {
    exists i :: 0 <= i < |arcs| && arcs[i] == x && y !in arcs[..i]
  }

  /** The run and its partner share a chain whose lines are built from the one of them that is listed first. */
  ghost predicate Chained(smooth: (Line, Line, nat) -> Line, flat: Line -> bool, arcs: seq<Arc>, x: Arc)
    reads x, x.partner
  {
    Shares(x) &&
    if ListedFirst(arcs, x, x.partner) then Climbs(smooth, flat, x, x.partner)
    else Climbs(smooth, flat, x.partner, x)
  }

  /** One chain for every matched pair. */
  method BuildChains(smooth: (Line, Line, nat) -> Line, flat: Line -> bool, arcs: seq<Arc>)
    requires Matched(arcs) && forall x :: x in arcs && x.partner != null ==> x.whole == x.partner.whole
    modifies (set x | x in arcs)`chain, (set x | x in arcs)`levels
    ensures forall x :: x in arcs && x.partner != null ==> Chained(smooth, flat, arcs, x)
    ensures forall x, y :: x in arcs && y in arcs && x.partner != null && x.chain == y.chain ==>
              y == x || y == x.partner
    ensures forall x :: x in arcs && x.partner == null ==> x.chain == old(x.chain) && x.levels == old(x.levels)
  {
    hide Shares, Climbs, Chained, IsRung, Opposite;
    var done: set<Arc> := {};
    ghost var made: set<Chain?> := {};
    for i := 0 to |arcs|
      invariant forall x :: x in done ==>
                  x in arcs && x.partner != null && x.partner in done && Chained(smooth, flat, arcs, x)
      invariant fresh(made) && forall x :: x in done ==> x.chain in made
      invariant forall x, y :: x in done && y in done && x.chain == y.chain ==> y == x || y == x.partner
      invariant forall k :: 0 <= k < i && arcs[k].partner != null ==> arcs[k] in done
      invariant forall x :: x in arcs && x.partner == null ==> x.chain == old(x.chain) && x.levels == old(x.levels)
    {
      var x := arcs[i];
      if x.partner == null || x in done {
        continue;
      }
      var y := x.partner;
      OppositeRuns(x, y);
      assert y !in done;
      assert arcs[i] == x && y !in arcs[..i];
      done := done + {x, y};
      ChainPair(smooth, flat, x, y);
      BothChained(smooth, flat, arcs, x, y);
      made := made + {x.chain};
    }
  }

  lemma OppositeRuns(x: Arc, y: Arc)
    requires Opposite(x, y)
    ensures x != y && x.pts != [] && y.pts != []
  {
  }

  lemma BothChained(smooth: (Line, Line, nat) -> Line, flat: Line -> bool, arcs: seq<Arc>, x: Arc, y: Arc)
    requires ListedFirst(arcs, x, y) && x != y && x.partner == y && y.partner == x
    requires Shares(x) && Shares(y) && Climbs(smooth, flat, x, y)
    ensures Chained(smooth, flat, arcs, x) && Chained(smooth, flat, arcs, y)
  {
    hide Shares, Climbs;
    var i :| 0 <= i < |arcs| && arcs[i] == x && y !in arcs[..i];
    forall j | 0 <= j < |arcs| && arcs[j] == y ensures x in arcs[..j] {
      assert i <= j && i != j;
      assert arcs[..j][i] == x;
    }
  }

  /** The chain of one pair, built from x and then y. */
  method ChainPair(smooth: (Line, Line, nat) -> Line, flat: Line -> bool, x: Arc, y: Arc)
    requires x.partner == y && y.partner == x && x.whole == y.whole && x.pts != [] && y.pts != []
    modifies {x, y}`chain, {x, y}`levels
    ensures Shares(x) && Shares(y) && fresh(x.chain) && x.chain == y.chain && Climbs(smooth, flat, x, y)
  {
    hide IsRung;
    var levels := BuildLadder(smooth, flat, x, y);
    ShareChain(x, y, levels);
  }

  /** Both runs of a pair get one chain, each fitted to its own ends. */
  method ShareChain(x: Arc, y: Arc, levels: seq<Line>)
    requires x.partner == y && y.partner == x && x.whole == y.whole && x.pts != [] && y.pts != [] && |levels| == LEVELS
    modifies {x, y}`chain, {x, y}`levels
    ensures Shares(x) && Shares(y) && fresh(x.chain) && x.chain.levels == levels
  {
    var chain := new Chain(levels);
    x.chain := chain;
    y.chain := chain;
    x.levels := if x.whole then levels else FittedAll(x.pts, levels);
    y.levels := if x.whole then levels else FittedAll(y.pts, levels);
  }

  /** What the ladder asks of its cells: the runs at a chain are a pair, so stepping one of them affects the nodes of
      all of them, and every ladder has a rung. */
  lemma CellsArePairs(arcs: seq<Arc>, x: Arc, y: Arc)
    requires x in arcs && y in arcs && x.partner != null && Shares(x) && x.chain == y.chain
    requires forall a, b :: a in arcs && b in arcs && a.partner != null && a.chain == b.chain ==>
               b == a || b == a.partner
    ensures y.node in {x.node, x.partner.node} && y.levels != [] && |y.levels| == |x.levels|
  {
    assert y == x || y == x.partner;
  }

  function Interior(line: Line): Line
    requires |line| >= 2
  {
    line[1..|line| - 1]
  }

  /** At every level the two sides of an open matched pair have the same interior, up to direction. */
  lemma SharedInterior(x: Arc, l: nat)
    requires Shares(x) && !x.whole && l < LEVELS
    ensures var mine, theirs := x.levels[l], x.partner.levels[l];
            |mine| >= 2 && |theirs| >= 2 && (Interior(mine) == Interior(theirs) ||
              Interior(mine) == Reversed(Interior(theirs)))
  {
    var shared := x.chain.levels[l];
    assert Reversed(Reversed(shared)) == shared;
    forall pts: Line | pts != [] ensures Interior(Fitted(pts, shared)) == shared ||
      Interior(Fitted(pts, shared)) == Reversed(shared) {
    }
  }
}
