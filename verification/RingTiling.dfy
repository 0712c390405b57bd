/** Cutting a closed contour into runs of equal label (tools/map_pipeline/borders_proto/compute.py). Positions are exact
    real arc lengths along the ring, measured from its first vertex. */
module RingTiling {

  type Point = (real, real)

  function Next(n: nat, i: nat): nat
    requires i < n
  {
    if i + 1 < n then i + 1 else 0
  }

  // ---------------------------------------------------------------- labelling

  const COAST := -1

  /** How much closer a neighbour must be to take a sample over. */
  const MARGIN := 0.000000000001

  /** The label of one sample, from its distance to each neighbour in turn. A labelled sample is within the band and no
      neighbour is closer by more than the margins add up to; a coast sample has no neighbour inside the band by more
      than that. */
  method LabelSample(nids: seq<int>, distance: seq<real>, eps: real) returns (tag: int)
    requires |nids| == |distance| && forall k :: 0 <= k < |nids| ==> nids[k] != COAST
    ensures tag != COAST ==>
              exists k :: 0 <= k < |nids| && nids[k] == tag && distance[k] <= eps &&
                          forall m :: 0 <= m < |nids| ==> distance[k] <= distance[m] + MARGIN * |nids| as real
    ensures tag == COAST ==> forall m :: 0 <= m < |nids| ==> distance[m] > eps - MARGIN * |nids| as real
  {
    tag := COAST;
    var best := 0.0;
    ghost var at := 0;
    for i := 0 to |nids|
      invariant forall m :: 0 <= m < i ==> best <= distance[m]
      invariant tag == COAST && i > 0 ==> best > eps - MARGIN * i as real
      invariant tag != COAST ==>
                  (at < i && nids[at] == tag && distance[at] <= eps && distance[at] <= best + MARGIN * i as real)
    {
      var d := distance[i];
      if d <= eps && (i == 0 || d < best - MARGIN) {
        tag, at := nids[i], i;
      }
      best := if i == 0 || d < best then d else best;
    }
  }

  // ---------------------------------------------------------------- boundaries

  /** Samples along a ring of positive length: positions never decrease, and samples at one place have one label, the
      ring's end being the place where it starts. */
  ghost predicate Sampled(labels: seq<int>, pos: seq<real>, length: real) {
    && |labels| == |pos| >= 1
    && pos[0] == 0.0 < length
    && pos[|pos| - 1] <= length
    && (forall i, j :: 0 <= i < j < |pos| ==> pos[i] <= pos[j])
    && (forall i :: 0 <= i < |pos| - 1 && labels[i] != labels[i + 1] ==> pos[i] < pos[i + 1])
    && (labels[|pos| - 1] != labels[0] ==> pos[|pos| - 1] < length)
  }

  predicate Change(labels: seq<int>, i: nat)
    requires i < |labels|
  {
    labels[i] != labels[Next(|labels|, i)]
  }

  /** The samples below m whose cyclic successor has another label. */
  function Changes(labels: seq<int>, m: nat): (ch: seq<nat>)
    requires m <= |labels|
    ensures forall k :: 0 <= k < |ch| ==> ch[k] < m && Change(labels, ch[k])
    ensures forall j, k :: 0 <= j < k < |ch| ==> ch[j] < ch[k]
  {
    if m == 0 then [] else Changes(labels, m - 1) + if Change(labels, m - 1) then [m - 1] else []
  }

  lemma {:induction false} ChangesAll(labels: seq<int>, m: nat, i: nat)
    requires i < m <= |labels| && Change(labels, i)
    ensures i in Changes(labels, m)
  {
    var before, ch := Changes(labels, m - 1), Changes(labels, m);
    if i < m - 1 {
      ChangesAll(labels, m - 1, i);
      var k :| 0 <= k < |before| && before[k] == i;
      assert ch[k] == i;
    } else {
      assert ch[|before|] == i;
    }
  }

  /** Between two changes the label is constant. */
  lemma {:induction false} Constant(labels: seq<int>, lo: nat, hi: nat)
    requires lo <= hi < |labels|
    requires forall i :: lo <= i < hi ==> !Change(labels, i)
    ensures labels[lo] == labels[hi]
    decreases hi - lo
  {
    if lo < hi {
      assert !Change(labels, lo);
      Constant(labels, lo + 1, hi);
    }
  }

  /** Without any change all labels are the same. */
  lemma Uniform(labels: seq<int>)
    requires |labels| >= 1 && Changes(labels, |labels|) == []
    ensures forall i :: 0 <= i < |labels| ==> labels[i] == labels[0]
  {
    forall i | 0 <= i < |labels| ensures labels[i] == labels[0] {
      forall j | 0 <= j < i ensures !Change(labels, j) {
        if Change(labels, j) {
          ChangesAll(labels, |labels|, j);
        }
      }
      Constant(labels, 0, i);
    }
  }

  lemma SomeOther(labels: seq<int>)
    requires Changes(labels, |labels|) != []
    ensures exists i :: 0 <= i < |labels| && labels[i] != labels[0]
  {
    var i := Changes(labels, |labels|)[0];
    assert Change(labels, i);
    assert labels[i] != labels[0] || labels[Next(|labels|, i)] != labels[0];
  }

  lemma QuietBetween(labels: seq<int>, k: nat)
    requires k < |Changes(labels, |labels|)|
    ensures var ch := Changes(labels, |labels|);
            && (k == 0 ==> forall i :: 0 <= i < ch[0] ==> !Change(labels, i))
            && (k + 1 < |ch| ==> forall i :: ch[k] < i < ch[k + 1] ==> !Change(labels, i))
            && (k + 1 == |ch| ==> forall i :: ch[k] < i < |labels| ==> !Change(labels, i))
  {
    hide Changes, Change;
    var ch := Changes(labels, |labels|);
    forall i | 0 <= i < |labels| && Change(labels, i) ensures exists m :: 0 <= m < |ch| && ch[m] == i {
      ChangesAll(labels, |labels|, i);
    }
  }

  lemma WrapLabel(labels: seq<int>, k: nat, i: nat)
    requires k + 1 == |Changes(labels, |labels|)| && i <= Changes(labels, |labels|)[0]
    ensures labels[i] == labels[Next(|labels|, Changes(labels, |labels|)[k])]
  {
    hide Changes;
    var ch := Changes(labels, |labels|);
    var n := |labels|;
    QuietBetween(labels, 0);
    Constant(labels, 0, i);
    if ch[k] + 1 < n {
      QuietBetween(labels, k);
      Constant(labels, ch[k] + 1, n - 1);
      assert !Change(labels, n - 1);
    }
  }

  /** The label of every sample after change k, up to and including the next one. */
  lemma RunLabel(labels: seq<int>, k: nat, i: nat)
    requires k < |Changes(labels, |labels|)| && i < |labels|
    requires var ch := Changes(labels, |labels|);
             if k + 1 < |ch| then ch[k] < i <= ch[k + 1] else ch[k] < i || i <= ch[0]
    ensures labels[i] == labels[Next(|labels|, Changes(labels, |labels|)[k])]
  {
    hide Changes;
    var ch := Changes(labels, |labels|);
    var n := |labels|;
    if ch[k] < i {
      QuietBetween(labels, k);
      Constant(labels, ch[k] + 1, i);
    } else {
      WrapLabel(labels, k, i);
    }
  }

  /** A cyclic sequence of labels never changes exactly once. */
  lemma NeverOneChange(labels: seq<int>)
    requires |labels| >= 1
    ensures |Changes(labels, |labels|)| != 1
  {
    var ch := Changes(labels, |labels|);
    if |ch| == 1 {
      RunLabel(labels, 0, ch[0]);
    }
  }

  datatype Boundary = Boundary(t: real, after: int, before: int)

  /** Halfway between a change and the next sample. */
  function BoundaryAt(labels: seq<int>, pos: seq<real>, length: real, i: nat): Boundary
    requires |labels| == |pos| && i < |pos|
  {
    var j := Next(|pos|, i);
    var t := if j == 0 then (pos[i] + length + pos[0]) / 2.0 else (pos[i] + pos[j]) / 2.0;
    Boundary(if j == 0 && t >= length then t - length else t, labels[j], labels[i])
  }

  function Boundaries(labels: seq<int>, pos: seq<real>, length: real, m: nat): seq<Boundary>
    requires |labels| == |pos| && m <= |pos|
  {
    var ch := Changes(labels, m);
    seq(|ch|, k requires 0 <= k < |ch| => BoundaryAt(labels, pos, length, ch[k]))
  }

  method FindBoundaries(labels: seq<int>, pos: seq<real>, length: real) returns (bs: seq<Boundary>)
    requires |labels| == |pos|
    ensures bs == Boundaries(labels, pos, length, |labels|)
  {
    bs := [];
    var n := |labels|;
    for i := 0 to n
      invariant bs == Boundaries(labels, pos, length, i)
    {
      var j := Next(n, i);
      if labels[i] == labels[j] {
        continue;
      }
      var t;
      if j == 0 {
        t := (pos[i] + length + pos[0]) / 2.0;
        if t >= length {
          t := t - length;
        }
      } else {
        t := (pos[i] + pos[j]) / 2.0;
      }
      bs := bs + [Boundary(t, labels[j], labels[i])];
    }
  }

  /** Where sample i ends: the position of the next one. */
  function EndOf(pos: seq<real>, length: real, i: nat): real
    requires i < |pos|
  {
    if i + 1 < |pos| then pos[i + 1] else length
  }

  /** A boundary lies strictly between its two samples. */
  lemma BoundaryPlace(labels: seq<int>, pos: seq<real>, length: real, i: nat)
    requires Sampled(labels, pos, length) && i < |pos| && Change(labels, i)
    ensures pos[i] < BoundaryAt(labels, pos, length, i).t < EndOf(pos, length, i) <= length
  {
  }

  /** A sample is before a boundary exactly when its index is not beyond the change. */
  lemma BoundarySide(labels: seq<int>, pos: seq<real>, length: real, i: nat, s: nat)
    requires Sampled(labels, pos, length) && i < |pos| && s < |pos| && Change(labels, i)
    ensures pos[s] < BoundaryAt(labels, pos, length, i).t <==> s <= i
    ensures pos[s] > BoundaryAt(labels, pos, length, i).t <==> s > i
  {
    BoundaryPlace(labels, pos, length, i);
    assert s <= i ==> pos[s] <= pos[i];
    assert s > i ==> pos[s] >= EndOf(pos, length, i);
  }

  // ------------------------------------------------------------------- sorting

  /** Tuples compare by position, then by the labels. */
  predicate NotAfter(a: Boundary, b: Boundary) {
    a.t < b.t || (a.t == b.t && (a.after < b.after || (a.after == b.after && a.before <= b.before)))
  }

  function Insert(s: seq<Boundary>, b: Boundary): seq<Boundary> {
    if s == [] || NotAfter(s[|s| - 1], b) then s + [b] else Insert(s[..|s| - 1], b) + [s[|s| - 1]]
  }

  function Sorted(s: seq<Boundary>): seq<Boundary> {
    if s == [] then [] else Insert(Sorted(s[..|s| - 1]), s[|s| - 1])
  }

  lemma {:induction false} SortedAlready(s: seq<Boundary>)
    requires forall i :: 0 <= i < |s| - 1 ==> s[i].t < s[i + 1].t
    ensures Sorted(s) == s
  {
    if s != [] {
      SortedAlready(s[..|s| - 1]);
    }
  }

  /** The boundaries are found in strictly increasing order inside the ring, so sorting them changes nothing. */
  lemma FoundInOrder(labels: seq<int>, pos: seq<real>, length: real)
    requires Sampled(labels, pos, length)
    ensures var bs := Boundaries(labels, pos, length, |labels|);
            && Sorted(bs) == bs
            && (forall i, j :: 0 <= i < j < |bs| ==> bs[i].t < bs[j].t)
            && (forall i :: 0 <= i < |bs| ==> 0.0 < bs[i].t < length)
  {
    var ch := Changes(labels, |labels|);
    var bs := Boundaries(labels, pos, length, |labels|);
    forall i | 0 <= i < |bs| ensures 0.0 < bs[i].t < length {
      BoundaryPlace(labels, pos, length, ch[i]);
    }
    forall i, j | 0 <= i < j < |bs| ensures bs[i].t < bs[j].t {
      BoundaryPlace(labels, pos, length, ch[j]);
      BoundarySide(labels, pos, length, ch[i], ch[j]);
    }
    SortedAlready(bs);
  }

  // -------------------------------------------------------------------- slices

  /** Vertex positions: from zero, never decreasing, the last entry being the ring's length. */
  ghost predicate Positions(coords: seq<Point>, c: seq<real>) {
    && |coords| >= 1 && |c| == |coords| + 1
    && c[0] == 0.0 < c[|coords|]
    && forall i, j :: 0 <= i < j < |c| ==> c[i] <= c[j]
  }

  /** The float remainder: in 0 .. m for any x. */
  function Mod(x: real, m: real): (r: real)
    requires m > 0.0
  {
    x - (x / m).Floor as real * m
  }

  lemma ModSmall(x: real, m: real)
    requires 0.0 <= x < m
    ensures Mod(x, m) == x
  {
    assert 0.0 <= x / m < 1.0;
  }

  /** How many leading entries of a sorted list are at most x. */
  function Bisect(c: seq<real>, x: real): (k: nat)
    ensures k <= |c| && (k > 0 ==> c[k - 1] <= x) && forall j :: k <= j < |c| ==> c[j] > x
  {
    if c == [] || c[|c| - 1] <= x then |c| else Bisect(c[..|c| - 1], x)
  }

  function Lerp(p: Point, q: Point, t: real): Point {
    (p.0 + (q.0 - p.0) * t, p.1 + (q.1 - p.1) * t)
  }

  function Interp(coords: seq<Point>, c: seq<real>, x: real): Point
    requires |coords| >= 1 && |c| == |coords| + 1 && c[0] <= x
  {
    var i := if Bisect(c, x) - 1 < |coords| - 1 then Bisect(c, x) - 1 else |coords| - 1;
    var seg := c[i + 1] - c[i];
    Lerp(coords[i], coords[Next(|coords|, i)], if seg <= 0.0 then 0.0 else (x - c[i]) / seg)
  }

  lemma Grown(u: real, m: real)
    requires u >= 1.0 && m > 0.0
    ensures u * m >= m
  {
    assert (u - 1.0) * m >= 0.0;
  }

  lemma Fraction(a: real, b: real)
    requires 0.0 <= a < b
    ensures 0.0 <= a / b < 1.0 && a / b * b == a && (a == 0.0 ==> a / b == 0.0)
  {
    if a / b >= 1.0 {
      Grown(a / b, b);
      assert false;
    }
  }

  /** The point at a position inside the ring lies on a segment, as far along it as the position says; at a vertex it is
      the vertex. */
  lemma InterpOnRing(coords: seq<Point>, c: seq<real>, x: real) returns (i: nat, t: real)
    requires Positions(coords, c) && 0.0 <= x < c[|coords|]
    ensures i < |coords| && 0.0 <= t < 1.0 && x == c[i] + t * (c[i + 1] - c[i])
    ensures Interp(coords, c, x) == Lerp(coords[i], coords[Next(|coords|, i)], t)
    ensures c[i] == x ==> Interp(coords, c, x) == coords[i]
  {
    i := Bisect(c, x) - 1;
    var seg := c[i + 1] - c[i];
    assert c[i] <= x < c[i + 1];
    Fraction(x - c[i], seg);
    t := (x - c[i]) / seg;
  }

  /** The vertices whose position is kept, in order. */
  function Keep(c: seq<real>, n: nat, keep: real -> bool): (r: seq<nat>)
    requires n <= |c|
    ensures forall k :: 0 <= k < |r| ==> r[k] < n && keep(c[r[k]])
    ensures forall j, k :: 0 <= j < k < |r| ==> r[j] < r[k]
  {
    if n == 0 then [] else Keep(c, n - 1, keep) + if keep(c[n - 1]) then [n - 1] else []
  }

  lemma {:induction false} KeepAll(c: seq<real>, n: nat, keep: real -> bool, i: nat)
    requires i < n <= |c| && keep(c[i])
    ensures i in Keep(c, n, keep)
  {
    var before, r := Keep(c, n - 1, keep), Keep(c, n, keep);
    if i < n - 1 {
      KeepAll(c, n - 1, keep, i);
      var k :| 0 <= k < |before| && before[k] == i;
      assert r[k] == i;
    } else {
      assert r[|before|] == i;
    }
  }

  /** The ring's vertices inside the slice from s0 to s1, which wraps when s1 is beyond the ring's length. */
  function Inner(c: seq<real>, s0: real, s1: real): (r: seq<nat>)
    requires |c| >= 2 && c[|c| - 1] > 0.0
    ensures forall k :: 0 <= k < |r| ==> r[k] < |c| - 1
  {
    var n, length := |c| - 1, c[|c| - 1];
    var from := Mod(s0, length);
    if s1 <= length then Keep(c, n, x => from < x < s1)
    else Keep(c, n, x => x > from) + Keep(c, n, x => x < s1 - length)
  }

  function Take(coords: seq<Point>, indices: seq<nat>): seq<Point>
    requires forall k :: 0 <= k < |indices| ==> indices[k] < |coords|
  {
    seq(|indices|, k requires 0 <= k < |indices| => coords[indices[k]])
  }


  /** Both ends and the vertices between them. */
  function RawSlice(coords: seq<Point>, c: seq<real>, s0: real, s1: real): (r: seq<Point>)
    requires Positions(coords, c)
    ensures |r| >= 2
  {
    var length := c[|coords|];
    ModRange(s0, length);
    ModRange(if s1 > length then s1 - length else s1, length);
    [Interp(coords, c, Mod(s0, length))] + Take(coords, Inner(c, s0, s1)) +
    [Interp(coords, c, Mod(if s1 > length then s1 - length else s1, length))]
  }

  lemma Scaled(x: real, y: real, q: real, m: real)
    requires q <= y < q + 1.0 && m > 0.0 && y * m == x
    ensures 0.0 <= x - q * m < m
  {
    var u := y - q;
    assert u * m == y * m - q * m;
    var rest := (1.0 - u) * m;
    assert rest > 0.0 && u * m >= 0.0;
    assert rest == m - u * m;
  }

  lemma ModRange(x: real, m: real)
    requires m > 0.0
    ensures 0.0 <= Mod(x, m) < m
  {
    var y := x / m;
    assert y * m == x;
    Scaled(x, y, y.Floor as real, m);
  }

  /** Further apart than 1e-9. */
  predicate Apart(p: Point, q: Point) {
    (p.0 - q.0) * (p.0 - q.0) + (p.1 - q.1) * (p.1 - q.1) > 0.000000000000000001
  }

  /** A point too close to the last one kept is dropped. */
  function Dedup(s: seq<Point>): (r: seq<Point>)
    requires s != []
    ensures 1 <= |r| <= |s| && r[0] == s[0]
  {
    if |s| == 1 then s else
      var r := Dedup(s[..|s| - 1]);
      if Apart(s[|s| - 1], r[|r| - 1]) then r + [s[|s| - 1]] else r
  }

  predicate Near(p: Point, q: Point) {
    p == q || !Apart(p, q)
  }

  ghost predicate Represented(p: Point, r: seq<Point>) {
    exists q :: q in r && Near(p, q)
  }

  lemma MoreRepresents(p: Point, f: seq<Point>, r: seq<Point>)
    requires Represented(p, f) && f <= r
    ensures Represented(p, r)
  {
    hide Near;
    var q :| q in f && Near(p, q);
    assert q in r;
  }

  /** Neighbours kept are apart and nothing is invented. */
  lemma {:induction false} DedupApart(s: seq<Point>)
    requires s != []
    ensures forall k :: 0 <= k < |Dedup(s)| - 1 ==> Apart(Dedup(s)[k + 1], Dedup(s)[k])
    ensures forall k :: 0 <= k < |Dedup(s)| ==> Dedup(s)[k] in s
  {
    hide Apart;
    if |s| > 1 {
      var front := s[..|s| - 1];
      DedupApart(front);
      assert forall p :: p in front ==> p in s;
    }
  }

  /** Every point dropped is close to one kept, and the last one to the last one kept. */
  lemma {:induction false} DedupKeeps(s: seq<Point>)
    requires s != []
    ensures forall i :: 0 <= i < |s| ==> Represented(s[i], Dedup(s))
    ensures Near(s[|s| - 1], Dedup(s)[|Dedup(s)| - 1])
  {
    hide Apart, Represented;
    if |s| > 1 {
      var front, last := s[..|s| - 1], s[|s| - 1];
      DedupKeeps(front);
      var f, r := Dedup(front), Dedup(s);
      LastRepresents(last, r);
      forall i | 0 <= i < |s| ensures Represented(s[i], r) {
        if i < |s| - 1 {
          assert front[i] == s[i];
          MoreRepresents(s[i], f, r);
        }
      }
    } else {
      LastRepresents(s[0], s);
    }
  }

  lemma LastRepresents(p: Point, r: seq<Point>)
    requires r != [] && Near(p, r[|r| - 1])
    ensures Represented(p, r)
  {
    hide Near;
    assert r[|r| - 1] in r;
  }

  method SliceRing(coords: seq<Point>, c: seq<real>, s0: real, s1: real) returns (line: seq<Point>)
    requires Positions(coords, c)
    ensures line == Dedup(RawSlice(coords, c, s0, s1))
  {
    hide Interp, Inner, Mod, Apart;
    var length := c[|coords|];
    var from := Mod(s0, length);
    var wrapped := s1 > length;
    var end := if wrapped then s1 - length else s1;
    ModRange(s0, length);
    ModRange(end, length);
    var out := [Interp(coords, c, from)] + Take(coords, Inner(c, s0, s1)) + [Interp(coords, c, Mod(end, length))];
    assert out == RawSlice(coords, c, s0, s1);
    line := [out[0]];
    for i := 1 to |out|
      invariant line == Dedup(out[..i])
    {
      assert out[..i + 1][..i] == out[..i];
      if Apart(out[i], line[|line| - 1]) {
        line := line + [out[i]];
      }
    }
    assert out[..|out|] == out;
  }

  // ---------------------------------------------------------------------- arcs

  /** A run of one label: where it starts and ends along the ring, its polyline, and the labels meeting at each end. */
  datatype Arc = Arc(tag: int, start: real, end: real, line: seq<Point>, closed: bool, opens: set<int>,
    closes: set<int>)

  /** A position of the ring, or the same one a lap later, is in the arc. */
  predicate Covers(arc: Arc, x: real, length: real) {
    arc.start <= x < arc.end || arc.start <= x + length < arc.end
  }

  /** Two or more arcs, end to end once around the ring. */
  ghost predicate Chain(arcs: seq<Arc>, length: real) {
    && |arcs| >= 2
    && (forall k :: 0 <= k < |arcs| ==> 0.0 < arcs[k].start < length && arcs[k].start < arcs[k].end)
    && (forall k :: 0 <= k < |arcs| - 1 ==> arcs[k].end == arcs[k + 1].start)
    && arcs[|arcs| - 1].end == arcs[0].start + length
  }

  /** Around a junction two labels meet, different ones, and both arcs say so. */
  predicate Junction(a: Arc, b: Arc) {
    a.tag != b.tag && a.closes == b.opens == {a.tag, b.tag} && !a.closed && !b.closed
  }

  ghost predicate Meeting(arcs: seq<Arc>) {
    forall k :: 0 <= k < |arcs| ==> Junction(arcs[k], arcs[Next(|arcs|, k)])
  }

  /** Whatever arc covers a sample has the sample's label. */
  ghost predicate Faithful(arcs: seq<Arc>, labels: seq<int>, pos: seq<real>, length: real)
    requires |labels| == |pos|
  {
    forall i, k :: 0 <= i < |pos| && 0 <= k < |arcs| && Covers(arcs[k], pos[i], length) ==> arcs[k].tag == labels[i]
  }

  /** Each polyline is the ring between the arc's positions. */
  ghost predicate Sliced(arcs: seq<Arc>, coords: seq<Point>, c: seq<real>)
    requires Positions(coords, c)
  {
    forall k :: 0 <= k < |arcs| ==> arcs[k].line == Dedup(RawSlice(coords, c, arcs[k].start, arcs[k].end))
  }

  /** The arc that boundary k opens. */
  function ArcAt(bs: seq<Boundary>, length: real, k: nat, line: seq<Point>): Arc
    requires k < |bs|
  {
    var next := Next(|bs|, k);
    var last := if k == 0 then |bs| - 1 else k - 1;
    Arc(bs[k].after, bs[k].t, if k + 1 < |bs| then bs[k + 1].t else bs[0].t + length, line, false,
        {bs[last].after, bs[k].after}, {bs[k].after, bs[next].after})
  }

  ghost predicate Opened(arcs: seq<Arc>, bs: seq<Boundary>, length: real) {
    |arcs| <= |bs| && forall k :: 0 <= k < |arcs| ==> arcs[k] == ArcAt(bs, length, k, arcs[k].line)
  }

  lemma OpenedChain(bs: seq<Boundary>, length: real, arcs: seq<Arc>)
    requires |arcs| == |bs| >= 2 && Opened(arcs, bs, length)
    requires forall i, j :: 0 <= i < j < |bs| ==> bs[i].t < bs[j].t
    requires forall i :: 0 <= i < |bs| ==> 0.0 < bs[i].t < length
    ensures Chain(arcs, length)
  {
  }

  lemma OpenedJunction(labels: seq<int>, pos: seq<real>, length: real, arcs: seq<Arc>, k: nat)
    requires |labels| == |pos| && Sampled(labels, pos, length)
    requires var bs := Boundaries(labels, pos, length, |labels|);
             |arcs| == |bs| >= 2 && Opened(arcs, bs, length) && k < |arcs|
    ensures Junction(arcs[k], arcs[Next(|arcs|, k)])
  {
    hide Sampled, Changes;
    var ch := Changes(labels, |labels|);
    var m := Next(|arcs|, k);
    RunLabel(labels, k, ch[m]);
    assert Change(labels, ch[m]);
  }

  lemma OpenedMeets(labels: seq<int>, pos: seq<real>, length: real, arcs: seq<Arc>)
    requires |labels| == |pos| && Sampled(labels, pos, length)
    requires var bs := Boundaries(labels, pos, length, |labels|);
             bs != [] && |arcs| == |bs| && Opened(arcs, bs, length)
    ensures Meeting(arcs)
  {
    NeverOneChange(labels);
    forall k | 0 <= k < |arcs| ensures Junction(arcs[k], arcs[Next(|arcs|, k)]) {
      OpenedJunction(labels, pos, length, arcs, k);
    }
  }

  lemma OpenedFaithful(labels: seq<int>, pos: seq<real>, length: real, arcs: seq<Arc>, k: nat, i: nat)
    requires Sampled(labels, pos, length) && i < |pos|
    requires var bs := Boundaries(labels, pos, length, |labels|);
             |arcs| == |bs| && Opened(arcs, bs, length) && k < |bs| && Covers(arcs[k], pos[i], length)
    ensures arcs[k].tag == labels[i]
  {
    var ch := Changes(labels, |labels|);
    FoundInOrder(labels, pos, length);
    BoundarySide(labels, pos, length, ch[k], i);
    BoundarySide(labels, pos, length, ch[0], i);
    if k + 1 < |ch| {
      BoundarySide(labels, pos, length, ch[k + 1], i);
    }
    RunLabel(labels, k, i);
  }

  /** The arcs opened by a ring's own boundaries tile it and carry its samples' labels. */
  lemma OpenedTile(labels: seq<int>, pos: seq<real>, length: real, arcs: seq<Arc>)
    requires |labels| == |pos| >= 1 && Sampled(labels, pos, length)
    requires var bs := Boundaries(labels, pos, length, |labels|);
             bs != [] && |arcs| == |bs| && Opened(arcs, bs, length)
    ensures Chain(arcs, length) && Meeting(arcs) && Faithful(arcs, labels, pos, length)
  {
    hide Sampled, Opened, Covers, Changes, BoundaryAt, Meeting, Chain;
    NeverOneChange(labels);
    FoundInOrder(labels, pos, length);
    OpenedChain(Boundaries(labels, pos, length, |labels|), length, arcs);
    OpenedMeets(labels, pos, length, arcs);
    forall i, k | 0 <= i < |pos| && 0 <= k < |arcs| && Covers(arcs[k], pos[i], length)
      ensures arcs[k].tag == labels[i]
    {
      OpenedFaithful(labels, pos, length, arcs, k, i);
    }
  }

  /** Arc k starts halfway between sample i and the next one, the ring's end being the place of the first; the label
      changes there from the arc before to this one. */
  ghost predicate StartsHalfway(arcs: seq<Arc>, labels: seq<int>, pos: seq<real>, length: real, k: nat, i: nat)
    requires |labels| == |pos| && k < |arcs| && i < |pos|
  {
    && arcs[k].start - pos[i] == EndOf(pos, length, i) - arcs[k].start
    && arcs[if k == 0 then |arcs| - 1 else k - 1].tag == labels[i] != labels[Next(|pos|, i)] == arcs[k].tag
  }

  /** The arcs are as many as the samples followed by another label, and start there one after the other. */
  ghost predicate Halved(arcs: seq<Arc>, labels: seq<int>, pos: seq<real>, length: real)
    requires |labels| == |pos|
  {
    exists at: seq<nat> :: |at| == |arcs| && CutsAt(arcs, labels, pos, length, at)
  }

  ghost predicate CutsAt(arcs: seq<Arc>, labels: seq<int>, pos: seq<real>, length: real, at: seq<nat>)
    requires |labels| == |pos| && |at| == |arcs|
  {
    && (forall j, k :: 0 <= j < k < |at| ==> at[j] < at[k])
    && (forall i :: 0 <= i < |labels| && labels[i] != labels[Next(|labels|, i)] ==> i in at)
    && (forall k :: 0 <= k < |at| ==> at[k] < |pos| && StartsHalfway(arcs, labels, pos, length, k, at[k]))
  }

  lemma OpenedHalfway(labels: seq<int>, pos: seq<real>, length: real, arcs: seq<Arc>, k: nat)
    requires Sampled(labels, pos, length)
    requires var bs := Boundaries(labels, pos, length, |labels|);
             bs != [] && |arcs| == |bs| && Opened(arcs, bs, length) && k < |bs|
    ensures StartsHalfway(arcs, labels, pos, length, k, Changes(labels, |labels|)[k])
  {
    hide Changes;
    var ch := Changes(labels, |labels|);
    var last := if k == 0 then |ch| - 1 else k - 1;
    BoundaryPlace(labels, pos, length, ch[k]);
    RunLabel(labels, last, ch[k]);
  }

  /** Every cut is halfway between the two samples it separates, and there is one for each change. */
  lemma OpenedHalved(labels: seq<int>, pos: seq<real>, length: real, arcs: seq<Arc>)
    requires Sampled(labels, pos, length)
    requires var bs := Boundaries(labels, pos, length, |labels|);
             bs != [] && |arcs| == |bs| && Opened(arcs, bs, length)
    ensures Halved(arcs, labels, pos, length)
  {
    hide StartsHalfway, Opened, Sampled, BoundaryAt;
    var ch := Changes(labels, |labels|);
    assert |labels| == |pos| >= 1 by {
      AnySample(labels, pos, length);
    }
    forall i | 0 <= i < |labels| && labels[i] != labels[Next(|labels|, i)] ensures i in ch {
      ChangesAll(labels, |labels|, i);
    }
    forall k | 0 <= k < |ch| ensures StartsHalfway(arcs, labels, pos, length, k, ch[k]) {
      OpenedHalfway(labels, pos, length, arcs, k);
    }
    assert CutsAt(arcs, labels, pos, length, ch);
  }

  lemma AnySample(labels: seq<int>, pos: seq<real>, length: real)
    requires Sampled(labels, pos, length)
    ensures |labels| == |pos| >= 1
  {
  }

  method CutAt(coords: seq<Point>, c: seq<real>, bs: seq<Boundary>) returns (arcs: seq<Arc>)
    requires Positions(coords, c)
    ensures |arcs| == |bs| && Opened(arcs, bs, c[|coords|]) && Sliced(arcs, coords, c)
  {
    hide RawSlice, Dedup;
    var length := c[|coords|];
    arcs := [];
    for k := 0 to |bs|
      invariant |arcs| == k && Opened(arcs, bs, length) && Sliced(arcs, coords, c)
    {
      var t0, t1 := bs[k].t, if k + 1 < |bs| then bs[k + 1].t else bs[0].t + length;
      var line := SliceRing(coords, c, t0, t1);
      arcs := arcs + [ArcAt(bs, length, k, line)];
    }
  }

  /** The arcs of a contour: one closed arc when the labels agree, otherwise arcs that tile the ring, cut halfway
      between the samples where the label changes. */
  method RingArcs(coords: seq<Point>, c: seq<real>, labels: seq<int>, pos: seq<real>) returns (arcs: seq<Arc>)
    requires |coords| >= 1 && |c| == |coords| + 1 && |labels| == |pos| >= 1
    requires c[|coords|] > 0.0 ==> Positions(coords, c) && Sampled(labels, pos, c[|coords|])
    ensures c[|coords|] <= 0.0 ==> arcs == []
    ensures c[|coords|] > 0.0 ==>
              if exists i :: 0 <= i < |labels| && labels[i] != labels[0]
              then Chain(arcs, c[|coords|]) && Meeting(arcs) && Faithful(arcs, labels, pos, c[|coords|]) &&
                Halved(arcs, labels, pos, c[|coords|]) && Sliced(arcs, coords, c)
              else arcs == [Arc(labels[0], 0.0, c[|coords|], coords, true, {}, {})]
  {
    hide RawSlice, Dedup, BoundaryAt, Sorted, Chain, Meeting, Faithful, Halved, Sampled, Positions, Changes;
    var length := c[|coords|];
    if length <= 0.0 {
      return [];
    }
    var bs := FindBoundaries(labels, pos, length);
    if bs == [] {
      Uniform(labels);
      return [Arc(labels[0], 0.0, length, coords, true, {}, {})];
    }
    FoundInOrder(labels, pos, length);
    arcs := CutAt(coords, c, Sorted(bs));
    OpenedTile(labels, pos, length, arcs);
    OpenedHalved(labels, pos, length, arcs);
    SomeOther(labels);
  }

  // --------------------------------------------------------- what tiling means

  lemma {:induction false} StartsIncrease(arcs: seq<Arc>, length: real, j: nat, k: nat)
    requires Chain(arcs, length) && j < k < |arcs|
    ensures arcs[j].end <= arcs[k].start && arcs[j].start < arcs[k].start
    decreases k - j
  {
    if j + 1 < k {
      StartsIncrease(arcs, length, j + 1, k);
    }
  }

  function SpanSum(arcs: seq<Arc>): real {
    if arcs == [] then 0.0 else SpanSum(arcs[..|arcs| - 1]) + (arcs[|arcs| - 1].end - arcs[|arcs| - 1].start)
  }

  lemma {:induction false} SpansTelescope(arcs: seq<Arc>, length: real, m: nat)
    requires Chain(arcs, length) && 1 <= m <= |arcs|
    ensures SpanSum(arcs[..m]) == arcs[m - 1].end - arcs[0].start
  {
    assert arcs[..m][..m - 1] == arcs[..m - 1];
    if m > 1 {
      SpansTelescope(arcs, length, m - 1);
    } else {
      assert SpanSum(arcs[..0]) == 0.0;
    }
  }

  /** The spans add up to the ring. */
  lemma SpansFill(arcs: seq<Arc>, length: real)
    requires Chain(arcs, length)
    ensures SpanSum(arcs) == length
  {
    SpansTelescope(arcs, length, |arcs|);
    assert arcs[..|arcs|] == arcs;
  }

  /** Every arc but the last is met directly; the last one holds what is left on both sides of the ring's start. */
  lemma CoversMeans(arcs: seq<Arc>, length: real, x: real, j: nat)
    requires Chain(arcs, length) && j < |arcs| && 0.0 <= x <= length
    ensures Covers(arcs[j], x, length) <==>
              if j + 1 < |arcs| then arcs[j].start <= x < arcs[j + 1].start
              else arcs[j].start <= x || x < arcs[0].start
  {
    if j + 1 < |arcs| {
      assert arcs[j].end == arcs[j + 1].start < length;
    }
  }

  /** Every position of the ring is in exactly one arc. */
  lemma CoveredOnce(arcs: seq<Arc>, length: real, x: real) returns (k: nat)
    requires Chain(arcs, length) && 0.0 <= x <= length
    ensures k < |arcs| && forall j :: 0 <= j < |arcs| ==> (Covers(arcs[j], x, length) <==> j == k)
  {
    hide Covers;
    k := |arcs| - 1;
    if x >= arcs[0].start {
      while x < arcs[k].start
        decreases k
        invariant k < |arcs| && (k + 1 < |arcs| ==> x < arcs[k + 1].start)
      {
        k := k - 1;
      }
    }
    forall j | 0 <= j < |arcs| ensures Covers(arcs[j], x, length) <==> j == k {
      CoversMeans(arcs, length, x, j);
      if j < k {
        StartsIncrease(arcs, length, j, k);
        if 0 < j {
          StartsIncrease(arcs, length, 0, j);
        }
      }
      if k < j {
        StartsIncrease(arcs, length, k, j);
      }
    }
  }

  // ------------------------------------------------------- vertices and slices

  /** Which vertices are inside a slice that starts in the ring. */
  lemma InnerMeans(c: seq<real>, s0: real, s1: real, i: nat)
    requires |c| >= 2 && 0.0 <= s0 < c[|c| - 1] && i < |c| - 1
    ensures var length := c[|c| - 1];
            i in Inner(c, s0, s1) <==> if s1 <= length then s0 < c[i] < s1 else c[i] > s0 || c[i] < s1 - length
  {
    var n, length := |c| - 1, c[|c| - 1];
    ModSmall(s0, length);
    if s1 <= length {
      if s0 < c[i] < s1 {
        KeepAll(c, n, x => s0 < x < s1, i);
      }
    } else {
      if c[i] > s0 {
        KeepAll(c, n, x => x > s0, i);
      }
      if c[i] < s1 - length {
        KeepAll(c, n, x => x < s1 - length, i);
      }
    }
  }

  /** How far ahead of s0 a place is, going round. */
  function Ahead(x: real, s0: real, length: real): real {
    if x > s0 then x - s0 else x - s0 + length
  }

  /** The vertices of a slice come in the order in which they are met from its start; at one place, in ring order. */
  lemma InnerOrder(c: seq<real>, s0: real, s1: real, j: nat, k: nat)
    requires |c| >= 2 && 0.0 <= s0 < c[|c| - 1] && s1 <= s0 + c[|c| - 1]
    requires forall a, b :: 0 <= a < b < |c| ==> 0.0 <= c[a] <= c[b]
    requires j < k < |Inner(c, s0, s1)|
    ensures var inner, length := Inner(c, s0, s1), c[|c| - 1];
            Ahead(c[inner[j]], s0, length) <= Ahead(c[inner[k]], s0, length) &&
            (c[inner[j]] == c[inner[k]] ==> inner[j] < inner[k])
  {
    var n, length := |c| - 1, c[|c| - 1];
    ModSmall(s0, length);
    if s1 > length {
      var after, before := Keep(c, n, x => x > s0), Keep(c, n, x => x < s1 - length);
      assert Inner(c, s0, s1) == after + before;
    }
  }

  /** A slice that does not meet itself holds each vertex at most once. */
  lemma InnerDistinct(c: seq<real>, s0: real, s1: real)
    requires |c| >= 2 && 0.0 <= s0 < c[|c| - 1] && s1 <= s0 + c[|c| - 1]
    ensures forall j, k :: 0 <= j < k < |Inner(c, s0, s1)| ==> Inner(c, s0, s1)[j] != Inner(c, s0, s1)[k]
  {
    var n, length := |c| - 1, c[|c| - 1];
    ModSmall(s0, length);
    if s1 > length {
      var after, before := Keep(c, n, x => x > s0), Keep(c, n, x => x < s1 - length);
      forall j, k | 0 <= j < |after| && 0 <= k < |before| ensures after[j] != before[k] {
        assert c[after[j]] > s0 && c[before[k]] < s1 - length;
      }
    }
  }

  /** Off the boundaries, being inside an arc's slice is being covered by the arc. */
  lemma InnerCovers(arcs: seq<Arc>, c: seq<real>, i: nat, j: nat)
    requires |c| >= 2 && Chain(arcs, c[|c| - 1]) && i < |c| - 1 && j < |arcs|
    requires 0.0 <= c[i] <= c[|c| - 1] && c[i] != arcs[j].start
    ensures i in Inner(c, arcs[j].start, arcs[j].end) <==> Covers(arcs[j], c[i], c[|c| - 1])
  {
    InnerMeans(c, arcs[j].start, arcs[j].end, i);
  }

  /** Every ring vertex off a boundary is inside exactly one slice, and there once. */
  lemma VertexOnce(arcs: seq<Arc>, coords: seq<Point>, c: seq<real>, i: nat) returns (k: nat)
    requires Positions(coords, c) && Chain(arcs, c[|coords|]) && i < |coords|
    requires forall j :: 0 <= j < |arcs| ==> c[i] != arcs[j].start
    ensures k < |arcs|
    ensures forall j :: 0 <= j < |arcs| ==> (i in Inner(c, arcs[j].start, arcs[j].end) <==> j == k)
    ensures multiset(Inner(c, arcs[k].start, arcs[k].end))[i] == 1
  {
    hide Inner, Covers;
    assert 0.0 <= c[i] <= c[|coords|];
    k := CoveredOnce(arcs, c[|coords|], c[i]);
    forall j | 0 <= j < |arcs| ensures i in Inner(c, arcs[j].start, arcs[j].end) <==> j == k {
      InnerCovers(arcs, c, i, j);
    }
    SpanWithin(arcs, c[|coords|], k);
    InnerDistinct(c, arcs[k].start, arcs[k].end);
    OnceOnly(Inner(c, arcs[k].start, arcs[k].end), i);
  }

  lemma SpanWithin(arcs: seq<Arc>, length: real, k: nat)
    requires Chain(arcs, length) && k < |arcs|
    ensures arcs[k].end <= arcs[k].start + length
  {
    if k + 1 < |arcs| {
      assert arcs[k].end == arcs[k + 1].start;
    } else {
      StartsIncrease(arcs, length, 0, k);
    }
  }

  lemma {:induction false} OnceOnly(s: seq<nat>, x: nat)
    requires forall j, k :: 0 <= j < k < |s| ==> s[j] != s[k]
    ensures multiset(s)[x] == if x in s then 1 else 0
  {
    if s != [] {
      OnceOnly(s[..|s| - 1], x);
      assert s == s[..|s| - 1] + [s[|s| - 1]];
    }
  }

  /** A vertex on a boundary is inside no slice: it is where two slices end. */
  lemma BoundaryVertex(arcs: seq<Arc>, coords: seq<Point>, c: seq<real>, i: nat, k: nat, j: nat)
    requires Positions(coords, c) && Chain(arcs, c[|coords|]) && i < |coords| && k < |arcs| && j < |arcs|
    requires c[i] == arcs[k].start
    ensures i !in Inner(c, arcs[j].start, arcs[j].end)
  {
    InnerMeans(c, arcs[j].start, arcs[j].end, i);
    assert j + 1 < |arcs| ==> arcs[j].end == arcs[j + 1].start;
    if j < k {
      StartsIncrease(arcs, c[|coords|], j, k);
    }
    if k < j {
      StartsIncrease(arcs, c[|coords|], k, j);
    }
    if 0 < k {
      StartsIncrease(arcs, c[|coords|], 0, k);
    }
  }

  /** Consecutive slices meet in one point. */
  lemma SlicesMeet(arcs: seq<Arc>, coords: seq<Point>, c: seq<real>, k: nat)
    requires Positions(coords, c) && Chain(arcs, c[|coords|]) && k < |arcs|
    ensures var next := arcs[Next(|arcs|, k)];
            var here := RawSlice(coords, c, arcs[k].start, arcs[k].end);
            here[|here| - 1] == RawSlice(coords, c, next.start, next.end)[0]
  {
    hide Interp, Inner, Mod;
  }
}
