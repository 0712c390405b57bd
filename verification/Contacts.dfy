/** Counting pixel contacts between sea zones and land, and between sea zones (tools/map_pipeline/graph.py). Labels are
    positive; 0 means no zone or no land. */
module Contacts {
  import opened Seas

  type Raster = map<Pixel, int>
  type Step = (Pixel, Pixel)

  /** The brute-force count: ordered pairs of neighbouring pixels, the first in zone z, the second on land l. */
  ghost function Crossings(zone: Raster, land: Raster, z: int, l: int): set<Step>
    requires zone.Keys == land.Keys
  {
    set p, q | p in zone && q in zone && Beside(p, q) && zone[p] == z && land[q] == l :: (p, q)
  }

  /** Ordered pairs of neighbouring pixels, the first in zone z1, the second in zone z2. For different zones every
      adjacency between them appears in exactly one order. */
  ghost function Meetings(zone: Raster, z1: int, z2: int): set<Step> {
    set p, q | p in zone && q in zone && Beside(p, q) && zone[p] == z1 && zone[q] == z2 :: (p, q)
  }

  function Get(count: map<(int, int), nat>, key: (int, int)): nat {
    if key in count then count[key] else 0
  }

  function Bump(count: map<(int, int), nat>, key: (int, int)): map<(int, int), nat> {
    count[key := Get(count, key) + 1]
  }

  // --------------------------------------------------------- counting so far

  ghost function CoastOn(zone: Raster, land: Raster, done: set<Step>, z: int, l: int): set<Step>
    requires zone.Keys == land.Keys && forall s :: s in done ==> s.0 in zone && s.1 in zone
  {
    set s | s in done && zone[s.0] == z && land[s.1] == l
  }

  ghost function SeaOn(zone: Raster, done: set<Step>, z1: int, z2: int): set<Step>
    requires forall s :: s in done ==> s.0 in zone && s.1 in zone
  {
    set s | s in done && zone[s.0] == z1 && zone[s.1] == z2
  }

  ghost predicate Inner(zone: Raster, land: Raster, done: set<Step>) {
    zone.Keys == land.Keys && forall s :: s in done ==> s.0 in zone && s.1 in zone
  }

  /** The tables hold the counts over the steps done, in either direction. */
  ghost predicate Counted(zone: Raster, land: Raster, done: set<Step>, coast: map<(int, int), nat>, sea: map<(int,
                          int), nat>)
    requires Inner(zone, land, done)
  {
    CoastCounted(zone, land, done, coast) && SeaCounted(zone, land, done, sea)
  }

  ghost predicate CoastCounted(zone: Raster, land: Raster, done: set<Step>, coast: map<(int, int), nat>)
    requires Inner(zone, land, done)
  {
    (forall z, l :: z > 0 && l > 0 ==> Get(coast, (z, l)) == |CoastOn(zone, land, done, z, l)|) &&
    (forall k :: k in coast ==> k.0 > 0 && k.1 > 0 && coast[k] > 0)
  }

  ghost predicate SeaCounted(zone: Raster, land: Raster, done: set<Step>, sea: map<(int, int), nat>)
    requires Inner(zone, land, done)
  {
    (forall z1, z2 :: 0 < z1 < z2 ==> Get(sea, (z1, z2)) == |SeaOn(zone, done, z1, z2)|) &&
    (forall k :: k in sea ==> 0 < k.0 < k.1 && sea[k] > 0)
  }

  /** The coast table after looking at the neighbours p and q from both sides. */
  function CoastAfter(zp: int, zq: int, lp: int, lq: int, coast: map<(int, int), nat>): map<(int, int), nat> {
    var first := if zp > 0 && lq > 0 then Bump(coast, (zp, lq)) else coast;
    if lp > 0 && zq > 0 then Bump(first, (zq, lp)) else first
  }

  function SeaAfter(zp: int, zq: int, sea: map<(int, int), nat>): map<(int, int), nat> {
    if zp > 0 && zq > 0 && zp != zq then Bump(sea, if zp < zq then (zp, zq) else (zq, zp)) else sea
  }

  lemma CoastOne(zone: Raster, land: Raster, done: set<Step>, s: Step, z: int, l: int)
    requires Inner(zone, land, done) && s.0 in zone && s.1 in zone && s !in done
    ensures Inner(zone, land, done + {s})
    ensures |CoastOn(zone, land, done + {s}, z, l)| ==
              |CoastOn(zone, land, done, z, l)| + if zone[s.0] == z && land[s.1] == l then 1 else 0
  {
    var was := CoastOn(zone, land, done, z, l);
    assert CoastOn(zone, land, done + {s}, z, l) == was + if zone[s.0] == z && land[s.1] == l then {s} else {};
  }

  lemma SeaOne(zone: Raster, land: Raster, done: set<Step>, s: Step, z1: int, z2: int)
    requires Inner(zone, land, done) && s.0 in zone && s.1 in zone && s !in done
    ensures Inner(zone, land, done + {s})
    ensures |SeaOn(zone, done + {s}, z1, z2)| ==
              |SeaOn(zone, done, z1, z2)| + if zone[s.0] == z1 && zone[s.1] == z2 then 1 else 0
  {
    var was := SeaOn(zone, done, z1, z2);
    assert SeaOn(zone, done + {s}, z1, z2) == was + if zone[s.0] == z1 && zone[s.1] == z2 then {s} else {};
  }

  lemma CoastTwo(zone: Raster, land: Raster, done: set<Step>, p: Pixel, q: Pixel, coast: map<(int, int), nat>, z: int,
                 l: int)
    requires Inner(zone, land, done) && CoastCounted(zone, land, done, coast) && z > 0 && l > 0
    requires p in zone && q in zone && p != q && (p, q) !in done && (q, p) !in done
    ensures Inner(zone, land, done + {(p, q), (q, p)})
    ensures Get(CoastAfter(zone[p], zone[q], land[p], land[q], coast), (z, l)) ==
              |CoastOn(zone, land, done + {(p, q), (q, p)}, z, l)|
  {
    var s, t := (p, q), (q, p);
    assert done + {s, t} == (done + {s}) + {t};
    CoastOne(zone, land, done, s, z, l);
    CoastOne(zone, land, done + {s}, t, z, l);
    CoastAfterCount(zone[p], zone[q], land[p], land[q], coast, z, l);
  }

  lemma CoastStep(zone: Raster, land: Raster, done: set<Step>, p: Pixel, q: Pixel, coast: map<(int, int), nat>)
    requires Inner(zone, land, done) && CoastCounted(zone, land, done, coast)
    requires p in zone && q in zone && p != q && (p, q) !in done && (q, p) !in done
    ensures Inner(zone, land, done + {(p, q), (q, p)})
    ensures CoastCounted(zone, land, done + {(p, q), (q, p)}, CoastAfter(zone[p], zone[q], land[p], land[q], coast))
  {
    hide CoastOn;
    forall z, l | z > 0 && l > 0
      ensures Get(CoastAfter(zone[p], zone[q], land[p], land[q], coast), (z, l)) ==
                |CoastOn(zone, land, done + {(p, q), (q, p)}, z, l)|
    {
      CoastTwo(zone, land, done, p, q, coast, z, l);
    }
  }

  lemma SeaTwo(zone: Raster, land: Raster, done: set<Step>, p: Pixel, q: Pixel, sea: map<(int, int), nat>, z1: int,
               z2: int)
    requires Inner(zone, land, done) && SeaCounted(zone, land, done, sea) && 0 < z1 < z2
    requires p in zone && q in zone && p != q && (p, q) !in done && (q, p) !in done
    ensures Inner(zone, land, done + {(p, q), (q, p)})
    ensures Get(SeaAfter(zone[p], zone[q], sea), (z1, z2)) == |SeaOn(zone, done + {(p, q), (q, p)}, z1, z2)|
  {
    var s, t := (p, q), (q, p);
    assert done + {s, t} == (done + {s}) + {t};
    SeaOne(zone, land, done, s, z1, z2);
    SeaOne(zone, land, done + {s}, t, z1, z2);
  }

  lemma CountedStep(zone: Raster, land: Raster, done: set<Step>, p: Pixel, q: Pixel, coast: map<(int, int), nat>,
                    sea: map<(int, int), nat>)
    requires Inner(zone, land, done) && Counted(zone, land, done, coast, sea)
    requires p in zone && q in zone && p != q && (p, q) !in done && (q, p) !in done
    ensures Inner(zone, land, done + {(p, q), (q, p)})
    ensures Counted(zone, land, done + {(p, q), (q, p)}, CoastAfter(zone[p], zone[q], land[p], land[q], coast),
                    SeaAfter(zone[p], zone[q], sea))
  {
    hide CoastOn, SeaOn, CoastCounted;
    CoastStep(zone, land, done, p, q, coast);
    forall z1, z2 | 0 < z1 < z2
      ensures Get(SeaAfter(zone[p], zone[q], sea), (z1, z2)) == |SeaOn(zone, done + {(p, q), (q, p)}, z1, z2)|
    {
      SeaTwo(zone, land, done, p, q, sea, z1, z2);
    }
  }

  lemma CoastAfterCount(zp: int, zq: int, lp: int, lq: int, coast: map<(int, int), nat>, z: int, l: int)
    requires z > 0 && l > 0
    ensures Get(CoastAfter(zp, zq, lp, lq, coast), (z, l)) ==
              Get(coast, (z, l)) + (if zp == z && lq == l then 1 else 0) + (if zq == z && lp == l then 1 else 0)
  {
  }

  // --------------------------------------------------------------- the scans

  /** The right-hand neighbour in the first scan, the lower one in the second. */
  function Ahead(scan: nat, p: Pixel): Pixel {
    if scan == 0 then Pixel(p.row, p.col + 1) else Pixel(p.row + 1, p.col)
  }

  /** The step has been looked at, in one direction or the other, before the scan reaches pixel (r, c). */
  ghost predicate Passed(scan: nat, r: int, c: int, s: Step) {
    exists k: nat, p :: (s == (p, Ahead(k, p)) || s == (Ahead(k, p), p)) && k < 2 && PassedAt(scan, r, c, k, p)
  }

  ghost predicate PassedAt(scan: nat, r: int, c: int, k: nat, p: Pixel) {
    k < scan || (k == scan && (p.row < r || (p.row == r && p.col < c)))
  }

  ghost function Done(zone: Raster, scan: nat, r: int, c: int): set<Step> {
    set p, q | p in zone && q in zone && Beside(p, q) && Passed(scan, r, c, (p, q)) :: (p, q)
  }

  lemma DoneAdvance(zone: Raster, scan: nat, r: int, c: int)
    requires scan < 2 && Pixel(r, c) in zone
    ensures var p, q := Pixel(r, c), Ahead(scan, Pixel(r, c));
            (p, q) !in Done(zone, scan, r, c) && (q, p) !in Done(zone, scan, r, c) &&
            Done(zone, scan, r, c + 1) == Done(zone, scan, r, c) + if q in zone then {(p, q), (q, p)} else {}
  {
    var p, q := Pixel(r, c), Ahead(scan, Pixel(r, c));
    forall s: Step | s.0 in zone && s.1 in zone && Beside(s.0, s.1)
      ensures Passed(scan, r, c + 1, s) <==> Passed(scan, r, c, s) || s == (p, q) || s == (q, p)
    {
      if Passed(scan, r, c + 1, s) {
        var k: nat, x :| (s == (x, Ahead(k, x)) || s == (Ahead(k, x), x)) && k < 2 && PassedAt(scan, r, c + 1, k, x);
        assert PassedAt(scan, r, c, k, x) || (k == scan && x == p);
      }
      if s == (p, q) || s == (q, p) {
        assert PassedAt(scan, r, c + 1, scan, p);
      }
      if Passed(scan, r, c, s) {
        var k: nat, x :| (s == (x, Ahead(k, x)) || s == (Ahead(k, x), x)) && k < 2 && PassedAt(scan, r, c, k, x);
        assert PassedAt(scan, r, c + 1, k, x);
      }
    }
    NotYet(scan, r, c, (p, q));
    NotYet(scan, r, c, (q, p));
  }

  lemma NotYet(scan: nat, r: int, c: int, s: Step)
    requires scan < 2
    requires s == (Pixel(r, c), Ahead(scan, Pixel(r, c))) || s == (Ahead(scan, Pixel(r, c)), Pixel(r, c))
    ensures !Passed(scan, r, c, s)
  {
  }

  lemma DoneTurns(zone: Raster, h: nat, w: nat, scan: nat, r: int)
    requires forall p :: p in zone <==> Inside(h, w, p)
    ensures 0 <= r < h ==> Done(zone, scan, r, w) == Done(zone, scan, r + 1, 0)
    ensures Done(zone, 0, h, 0) == Done(zone, 1, 0, 0)
    ensures Done(zone, 0, 0, 0) == {}
  {
  }

  ghost function Everything(zone: Raster): set<Step> {
    set p, q | p in zone && q in zone && Beside(p, q) :: (p, q)
  }

  lemma DoneAll(zone: Raster, h: nat, w: nat)
    requires forall p :: p in zone <==> Inside(h, w, p)
    ensures Done(zone, 1, h, 0) == Everything(zone)
  {
    forall p, q | p in zone && q in zone && Beside(p, q)
      ensures Passed(1, h, 0, (p, q))
    {
      assert q == Ahead(0, p) || q == Ahead(1, p) || p == Ahead(0, q) || p == Ahead(1, q);
      assert PassedAt(1, h, 0, 0, p) && PassedAt(1, h, 0, 1, p) && PassedAt(1, h, 0, 0, q) && PassedAt(1, h, 0, 1, q);
    }
  }

  /** Two scans over the rasters, right-hand neighbours first, then lower ones. Every table entry is the brute-force
      count, and absent entries count nothing. */
  method CountContacts(zones: array2<int>, lands: array2<int>)
    returns (coast: map<(int, int), nat>, sea: map<(int, int), nat>)
    requires zones.Length0 == lands.Length0 && zones.Length1 == lands.Length1
    ensures forall z, l :: z > 0 && l > 0 ==> Get(coast, (z, l)) == |Crossings(View(zones), View(lands), z, l)|
    ensures forall k :: k in coast ==> k.0 > 0 && k.1 > 0 && coast[k] > 0
    ensures forall z1, z2 :: 0 < z1 < z2 ==> Get(sea, (z1, z2)) == |Meetings(View(zones), z1, z2)|
    ensures forall k :: k in sea ==> 0 < k.0 < k.1 && sea[k] > 0
  {
    hide Done, Counted;
    var h, w := zones.Length0, zones.Length1;
    ghost var zone, land := View(zones), View(lands);
    coast, sea := map[], map[];
    StartCounted(zone, land);
    DoneTurns(zone, h, w, 0, 0);
    for scan := 0 to 2
      invariant scan < 2 ==>
                  Inner(zone, land, Done(zone, scan, 0, 0)) && Counted(zone, land, Done(zone, scan, 0, 0), coast, sea)
      invariant scan == 2 ==>
                  Inner(zone, land, Done(zone, 1, h, 0)) && Counted(zone, land, Done(zone, 1, h, 0), coast, sea)
    {
      for r := 0 to h
        invariant Inner(zone, land, Done(zone, scan, r, 0)) && Counted(zone, land, Done(zone, scan, r, 0), coast, sea)
      {
        for c := 0 to w
          invariant Inner(zone, land, Done(zone, scan, r, c)) && Counted(zone, land, Done(zone, scan, r, c), coast, sea)
        {
          var p := Pixel(r, c);
          var q := Ahead(scan, p);
          DoneAdvance(zone, scan, r, c);
          assert q !in zone ==> Done(zone, scan, r, c + 1) == Done(zone, scan, r, c);
          if Inside(h, w, q) {
            CountedStep(zone, land, Done(zone, scan, r, c), p, q, coast, sea);
            assert zone[p] == zones[r, c] && zone[q] == zones[q.row, q.col];
            assert land[p] == lands[r, c] && land[q] == lands[q.row, q.col];
            coast := CoastAfter(zones[r, c], zones[q.row, q.col], lands[r, c], lands[q.row, q.col], coast);
            sea := SeaAfter(zones[r, c], zones[q.row, q.col], sea);
          }
        }
        DoneTurns(zone, h, w, scan, r);
      }
      DoneTurns(zone, h, w, scan, h);
    }
    DoneAll(zone, h, w);
    CountedAll(zone, land, coast, sea);
  }

  lemma StartCounted(zone: Raster, land: Raster)
    requires zone.Keys == land.Keys
    ensures Inner(zone, land, {}) && Counted(zone, land, {}, map[], map[])
  {
  }

  lemma CountedAll(zone: Raster, land: Raster, coast: map<(int, int), nat>, sea: map<(int, int), nat>)
    requires Inner(zone, land, Everything(zone)) && Counted(zone, land, Everything(zone), coast, sea)
    ensures forall z, l :: z > 0 && l > 0 ==> Get(coast, (z, l)) == |Crossings(zone, land, z, l)|
    ensures forall k :: k in coast ==> k.0 > 0 && k.1 > 0 && coast[k] > 0
    ensures forall z1, z2 :: 0 < z1 < z2 ==> Get(sea, (z1, z2)) == |Meetings(zone, z1, z2)|
    ensures forall k :: k in sea ==> 0 < k.0 < k.1 && sea[k] > 0
  {
    forall z, l
      ensures CoastOn(zone, land, Everything(zone), z, l) == Crossings(zone, land, z, l)
    {
    }
    forall z1, z2
      ensures SeaOn(zone, Everything(zone), z1, z2) == Meetings(zone, z1, z2)
    {
    }
  }

  // ------------------------------------------------------ unordered contacts

  /** An adjacency without direction. */
  ghost function Sides(steps: set<Step>): set<set<Pixel>> {
    set s | s in steps :: {s.0, s.1}
  }

  lemma {:induction false} SidesBound(steps: set<Step>)
    ensures |Sides(steps)| <= |steps|
  {
    if steps != {} {
      var s :| s in steps;
      SidesBound(steps - {s});
      assert Sides(steps) == Sides(steps - {s}) + {{s.0, s.1}};
    }
  }

  /** No adjacency is in the set in both directions. */
  ghost predicate OneWay(steps: set<Step>) {
    forall s :: s in steps && s.0 != s.1 ==> (s.1, s.0) !in steps
  }

  /** Adjacencies are counted once each exactly when none is met from both sides. */
  lemma {:induction false} SidesExact(steps: set<Step>)
    ensures |Sides(steps)| == |steps| <==> OneWay(steps)
  {
    if steps != {} {
      var s :| s in steps;
      var rest := steps - {s};
      SidesExact(rest);
      SidesBound(rest);
      assert Sides(steps) == Sides(rest) + {{s.0, s.1}};
      if s.0 != s.1 && (s.1, s.0) in steps {
        SameSides(s, (s.1, s.0));
        assert {s.1, s.0} in Sides(rest);
        assert Sides(steps) == Sides(rest);
      } else {
        forall t | t in rest
          ensures {t.0, t.1} != {s.0, s.1}
        {
          SameSides(s, t);
        }
        assert |Sides(steps)| == |Sides(rest)| + 1;
        assert OneWay(steps) <==> OneWay(rest);
      }
    }
  }

  lemma SameSides(s: Step, t: Step)
    ensures {s.0, s.1} == {t.0, t.1} <==> t == s || t == (s.1, s.0)
  {
    if {s.0, s.1} == {t.0, t.1} {
      assert t.0 in {s.0, s.1} && t.1 in {s.0, s.1} && s.0 in {t.0, t.1} && s.1 in {t.0, t.1};
    }
  }

  /** The coast count is the number of undirected zone-land adjacencies exactly when no two neighbours both carry
      the zone and the land; rasters that never label a pixel both ways always satisfy that. */
  lemma CoastOncePerAdjacency(zone: Raster, land: Raster, z: int, l: int)
    requires zone.Keys == land.Keys
    ensures |Crossings(zone, land, z, l)| == |Sides(Crossings(zone, land, z, l))| <==>
              !exists p, q :: p in zone && q in zone && Beside(p, q) && zone[p] == z == zone[q] &&
                land[p] == l == land[q]
    ensures z > 0 && l > 0 && (forall p :: p in zone ==> zone[p] == 0 || land[p] == 0) ==>
              |Crossings(zone, land, z, l)| == |Sides(Crossings(zone, land, z, l))|
  {
    var c := Crossings(zone, land, z, l);
    SidesExact(c);
    if p, q :| p in zone && q in zone && Beside(p, q) && zone[p] == z == zone[q] && land[p] == l == land[q] {
      assert (p, q) in c && (q, p) in c;
    }
    if !OneWay(c) {
      var s :| s in c && s.0 != s.1 && (s.1, s.0) in c;
      assert Beside(s.0, s.1) && zone[s.0] == z == zone[s.1] && land[s.0] == l == land[s.1];
    }
  }

  /** Contacts between two different zones are always counted once. */
  lemma SeaOncePerAdjacency(zone: Raster, z1: int, z2: int)
    requires z1 != z2
    ensures |Meetings(zone, z1, z2)| == |Sides(Meetings(zone, z1, z2))|
  {
    SidesExact(Meetings(zone, z1, z2));
  }
}
