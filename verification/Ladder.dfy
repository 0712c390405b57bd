/** The smoothing ladder: arcs that escalate level by level until every node passes its guards
    (tools/map_pipeline/smooth.py).

    Polygon validity, the node guard, failure points and the pair measurements are library geometry; here they are
    arbitrary functions of the current levels of the arcs they look at. What is modelled in full is the mutable,
    shared state - a paired chain is one object stepped from either side - and the fixpoint loops over it. */
module Ladder {

  type Key = string

  /** The shared ladder of one matched pair of arcs. */
  class PairChain {
    const rungs: nat
    var level: nat

    constructor (rungs: nat)
      ensures this.rungs == rungs && level == 0
    {
      this.rungs, level := rungs, 0;
    }
  }

  /** One labelled run of a ring. A paired arc climbs its chain, any other its own ladder. */
  class Arc {
    const key: Key             // the node whose ring this is
    const ringIndex: nat
    const s0: real             // position along the ring
    const long: bool           // the original polyline has at least two points
    const partner: set<Key>    // the key of the partner's ring, if there is a partner
    const chain: PairChain?
    const rungs: nat
    var level: nat

    constructor (key: Key, ringIndex: nat, s0: real, long: bool, partner: set<Key>, chain: PairChain?, rungs: nat)
      ensures this.key == key && this.ringIndex == ringIndex && this.s0 == s0 && this.long == long
      ensures this.partner == partner && this.chain == chain && this.rungs == rungs && level == 0
    {
      this.key, this.ringIndex, this.s0, this.long := key, ringIndex, s0, long;
      this.partner, this.chain, this.rungs, level := partner, chain, rungs, 0;
    }

    /** The last level, standing for the original polyline. */
    function Top(): nat {
      if chain != null then chain.rungs else rungs
    }

    function At(): nat
      reads this, chain
    {
      if chain != null then chain.level else level
    }

    predicate Reverted()
      reads this, chain
    {
      At() >= Top()
    }

    /** The nodes whose geometry changes when this arc steps. */
    function Affected(): set<Key> {
      {key} + partner
    }

    /** Escalates one level, for both sides of a chain; tells whether anything moved. */
    method Step() returns (moved: bool)
      modifies this, chain
      ensures moved == !old(Reverted())
      ensures At() == old(At()) + if moved then 1 else 0
      ensures chain != null ==> level == old(level)
    {
      moved := !Reverted();
      if moved {
        if chain != null {
          chain.level := chain.level + 1;
        } else {
          level := level + 1;
        }
      }
    }

    /** Takes one level back. */
    method Unstep()
      requires At() > 0
      modifies this, chain
      ensures At() == old(At()) - 1
      ensures chain != null ==> level == old(level)
    {
      if chain != null {
        chain.level := chain.level - 1;
      } else {
        level := level - 1;
      }
    }

    /** Puts a level back that Unstep took. */
    method Restore()
      modifies this, chain
      ensures At() == old(At()) + 1
      ensures chain != null ==> level == old(level)
    {
      if chain != null {
        chain.level := chain.level + 1;
      } else {
        level := level + 1;
      }
    }
  }

  predicate SameCell(a: Arc, b: Arc) {
    a == b || (a.chain != null && a.chain == b.chain)
  }

  datatype Ring = Ring(arcs: seq<Arc>)

  /** A distance to a failure point, per arc. */
  type Probe = Arc -> real

  /** The geometry of one part as functions of the levels of its arcs: whether it assembles into a valid polygon,
      the rings that fail on their own, what a failure looks like and where it is. */
  datatype Shape = Shape(valid: seq<nat> -> bool, bad: seq<nat> -> seq<nat>, sig: seq<nat> -> int,
    probe: seq<nat> -> Probe,
                         ringSig: (nat, seq<nat>) -> int, ringProbe: (nat, seq<nat>) -> Probe)

  datatype Part = Part(rings: seq<Ring>, shape: Shape)

  /** A node with its area and displacement guard, consulted when all parts are valid. */
  datatype Node = Node(key: Key, parts: seq<Part>, ok: seq<nat> -> bool)

  function RingArcs(rings: seq<Ring>): seq<Arc> {
    if rings == [] then [] else rings[0].arcs + RingArcs(rings[1..])
  }

  function NodeArcs(parts: seq<Part>): seq<Arc> {
    if parts == [] then [] else RingArcs(parts[0].rings) + NodeArcs(parts[1..])
  }

  ghost function All(nodes: seq<Node>): set<Arc> {
    set n, a | n in nodes && a in NodeArcs(n.parts) :: a
  }

  function Keys(nodes: seq<Node>): set<Key> {
    set i | 0 <= i < |nodes| :: nodes[i].key
  }

  // ------------------------------------------------------------------- state

  /** A snapshot of the levels. */
  type Levels = map<Arc, nat>

  ghost function Cells(all: set<Arc>): set<object> {
    (set a | a in all :: a as object) + (set a | a in all && a.chain != null :: a.chain as object)
  }

  ghost function State(all: set<Arc>): (m: Levels)
    reads Cells(all)
    ensures m.Keys == all
  {
    map a | a in all :: a.At()
  }

  function Read(arcs: seq<Arc>): (s: seq<nat>)
    reads set a | a in arcs, set a | a in arcs && a.chain != null :: a.chain
    ensures |s| == |arcs| && forall i :: 0 <= i < |arcs| ==> s[i] == arcs[i].At()
  {
    if arcs == [] then [] else [arcs[0].At()] + Read(arcs[1..])
  }

  /** The levels of a list of arcs; an arc that is not part of m counts as level 0. */
  ghost function Vector(arcs: seq<Arc>, m: Levels): seq<nat> {
    seq(|arcs|, i requires 0 <= i < |arcs| => if arcs[i] in m then m[arcs[i]] else 0)
  }

  lemma ReadIsVector(arcs: seq<Arc>, all: set<Arc>)
    requires forall a :: a in arcs ==> a in all
    ensures Read(arcs) == Vector(arcs, State(all))
  {
  }

  ghost function Stepped(m: Levels, a: Arc): Levels {
    map b | b in m :: if SameCell(a, b) then m[b] + 1 else m[b]
  }

  ghost predicate CanUnstep(m: Levels, a: Arc) {
    forall b :: b in m && SameCell(a, b) ==> m[b] > 0
  }

  ghost function Unstepped(m: Levels, a: Arc): Levels
    requires CanUnstep(m, a)
  {
    map b | b in m :: if SameCell(a, b) then m[b] - 1 else m[b]
  }

  ghost predicate InRange(m: Levels) {
    forall a :: a in m ==> m[a] <= a.Top()
  }

  /** Arcs sharing a cell stand at the same level. */
  ghost predicate Coherent(m: Levels) {
    forall a, b :: a in m && b in m && SameCell(a, b) ==> m[a] == m[b]
  }

  lemma StateCoherent(all: set<Arc>)
    ensures Coherent(State(all))
  {
  }

  ghost predicate Steppable(a: Arc, m: Levels) {
    a in m && m[a] < a.Top()
  }

  /** From m to o no level sinks. */
  ghost predicate Rises(m: Levels, o: Levels) {
    m.Keys == o.Keys && forall a :: a in m ==> m[a] <= o[a]
  }

  /** From m to o levels only rose, never beyond the top; only touched nodes changed; and if anything was touched,
      something rose. */
  ghost predicate Advanced(m: Levels, o: Levels, touched: set<Key>) {
    Rises(m, o) && InRange(o) &&
    (forall a :: a in m && m[a] != o[a] ==> a.key in touched) &&
    (touched != {} ==> exists a :: a in m && m[a] < o[a])
  }

  lemma AdvancedTrans(m: Levels, n: Levels, o: Levels, s: set<Key>, t: set<Key>)
    requires Advanced(m, n, s) && Advanced(n, o, t)
    ensures Advanced(m, o, s + t)
  {
    if s != {} {
      var a :| a in m && m[a] < n[a];
    } else if t != {} {
      var a :| a in n && n[a] < o[a];
    }
  }

  lemma AdvancedStill(m: Levels)
    requires InRange(m)
    ensures Advanced(m, m, {})
  {
  }

  lemma IdleIsIdle(m: Levels, n: Levels, touched: set<Key>)
    requires Advanced(m, n, touched)
    ensures touched == {} <==> m == n
  {
  }

  /** What is left to climb. */
  ghost function Room(order: seq<Arc>, m: Levels): int
    requires forall a :: a in order ==> a in m
  {
    if order == [] then 0 else order[0].Top() - m[order[0]] + Room(order[1..], m)
  }

  lemma {:induction false} RoomShrinks(order: seq<Arc>, m: Levels, n: Levels)
    requires (forall a :: a in order ==> a in m) && Rises(m, n)
    ensures Room(order, n) <= Room(order, m)
    ensures (exists a :: a in order && m[a] < n[a]) ==> Room(order, n) < Room(order, m)
  {
    if order != [] {
      RoomShrinks(order[1..], m, n);
    }
  }

  lemma {:induction false} RoomNonNegative(order: seq<Arc>, m: Levels)
    requires (forall a :: a in order ==> a in m) && InRange(m)
    ensures Room(order, m) >= 0
  {
    if order != [] {
      RoomNonNegative(order[1..], m);
    }
  }

  // ------------------------------------------------------------ well-formed

  /** What the builder of the rings guarantees: keys are distinct, arcs carry their node's key, a shared chain is
      shared only by an arc and its partner, and every ladder has a rung. */
  ghost predicate WellFormed(nodes: seq<Node>) {
    (forall i, j :: 0 <= i < j < |nodes| ==> nodes[i].key != nodes[j].key) &&
    (forall n, a :: n in nodes && a in NodeArcs(n.parts) ==>
      a.key == n.key && a.Affected() <= Keys(nodes) && a.Top() > 0) &&
    (forall a, b :: a in All(nodes) && b in All(nodes) && SameCell(a, b) ==> b.key in a.Affected()) &&
    (forall n, p :: n in nodes && p in n.parts ==> forall s, k :: k in p.shape.bad(s) ==> k < |p.rings|)
  }

  /** Levels the stage can stand at. */
  ghost predicate Sound(nodes: seq<Node>, m: Levels) {
    WellFormed(nodes) && m.Keys == All(nodes) && InRange(m) && Coherent(m)
  }

  lemma SoundParts(nodes: seq<Node>, m: Levels)
    requires Sound(nodes, m)
    ensures WellFormed(nodes) && m.Keys == All(nodes) && InRange(m) && Coherent(m)
  {
  }

  lemma {:induction false} RingInRings(rings: seq<Ring>, k: nat, a: Arc)
    requires k < |rings| && a in rings[k].arcs
    ensures a in RingArcs(rings)
  {
    if k > 0 {
      RingInRings(rings[1..], k - 1, a);
    }
  }

  lemma {:induction false} PartInNode(parts: seq<Part>, k: nat, a: Arc)
    requires k < |parts| && a in RingArcs(parts[k].rings)
    ensures a in NodeArcs(parts)
  {
    if k > 0 {
      PartInNode(parts[1..], k - 1, a);
    }
  }

  lemma PartInAll(nodes: seq<Node>, n: Node, p: Part)
    requires n in nodes && p in n.parts
    ensures forall a :: a in RingArcs(p.rings) ==> a in All(nodes) && a in NodeArcs(n.parts)
    ensures forall k, a :: 0 <= k < |p.rings| && a in p.rings[k].arcs ==> a in RingArcs(p.rings)
  {
    var i :| 0 <= i < |n.parts| && n.parts[i] == p;
    forall a | a in RingArcs(p.rings)
      ensures a in NodeArcs(n.parts)
    {
      PartInNode(n.parts, i, a);
    }
    forall k, a | 0 <= k < |p.rings| && a in p.rings[k].arcs
      ensures a in RingArcs(p.rings)
    {
      RingInRings(p.rings, k, a);
    }
  }

  // ----------------------------------------------------------------- settled

  ghost predicate PartValid(p: Part, m: Levels) {
    p.shape.valid(Vector(RingArcs(p.rings), m))
  }

  /** No arc that a trial would consider can step. */
  ghost predicate NothingLong(arcs: seq<Arc>, m: Levels) {
    forall a :: a in arcs && a.long ==> !Steppable(a, m)
  }

  /** A part about which nothing needs to be or can be done. */
  ghost predicate PartDone(p: Part, m: Levels) {
    PartValid(p, m) || NothingLong(RingArcs(p.rings), m)
  }

  ghost predicate AllValid(n: Node, m: Levels) {
    forall p :: p in n.parts ==> PartValid(p, m)
  }

  ghost predicate Guarded(n: Node, m: Levels) {
    n.ok(Vector(NodeArcs(n.parts), m))
  }

  /** Every part valid and the guard passed. */
  ghost predicate Accepted(n: Node, m: Levels) {
    AllValid(n, m) && Guarded(n, m)
  }

  ghost predicate Exhausted(arcs: seq<Arc>, m: Levels) {
    forall a :: a in arcs ==> !Steppable(a, m)
  }

  ghost predicate StructureDone(n: Node, m: Levels) {
    forall p :: p in n.parts ==> PartDone(p, m)
  }

  ghost predicate GuardDone(n: Node, m: Levels) {
    AllValid(n, m) ==> Guarded(n, m) || Exhausted(NodeArcs(n.parts), m)
  }

  /** The fixpoint: a part that is not valid has no steppable arc left, and a node whose parts are all valid passes
      its guard or has no steppable arc left. */
  ghost predicate Settled(n: Node, m: Levels) {
    StructureDone(n, m) && GuardDone(n, m)
  }

  lemma AcceptedIsSettled(n: Node, m: Levels)
    requires Accepted(n, m)
    ensures Settled(n, m)
  {
  }

  /** A node none of whose arcs moved is as it was. */
  lemma Unmoved(n: Node, m: Levels, o: Levels)
    requires m.Keys == o.Keys && forall a :: a in NodeArcs(n.parts) && a in m ==> m[a] == o[a]
    ensures Settled(n, m) == Settled(n, o) && Accepted(n, m) == Accepted(n, o) && GuardDone(n, m) == GuardDone(n, o)
  {
    SameVector(NodeArcs(n.parts), m, o);
    forall p | p in n.parts
      ensures PartValid(p, m) == PartValid(p, o) && PartDone(p, m) == PartDone(p, o)
    {
      var k :| 0 <= k < |n.parts| && n.parts[k] == p;
      forall a | a in RingArcs(p.rings)
        ensures a in NodeArcs(n.parts)
      {
        PartInNode(n.parts, k, a);
      }
      SameVector(RingArcs(p.rings), m, o);
    }
  }

  lemma SameVector(arcs: seq<Arc>, m: Levels, o: Levels)
    requires m.Keys == o.Keys && forall a :: a in arcs && a in m ==> m[a] == o[a]
    ensures Vector(arcs, m) == Vector(arcs, o)
    ensures NothingLong(arcs, m) == NothingLong(arcs, o) && Exhausted(arcs, m) == Exhausted(arcs, o)
  {
  }

  /** A node that was not touched is as it was. */
  lemma Untouched(nodes: seq<Node>, n: Node, m: Levels, o: Levels, touched: set<Key>)
    requires Sound(nodes, m) && n in nodes && Advanced(m, o, touched) && n.key !in touched
    ensures Settled(n, m) == Settled(n, o) && Accepted(n, m) == Accepted(n, o)
  {
    Unmoved(n, m, o);
  }

  // ------------------------------------------------------------- single steps

  method StepArc(a: Arc, ghost all: set<Arc>) returns (moved: bool)
    requires a in all
    modifies a, a.chain
    ensures moved == old(Steppable(a, State(all)))
    ensures State(all) == if moved then Stepped(old(State(all)), a) else old(State(all))
  {
    moved := a.Step();
  }

  method UnstepArc(a: Arc, ghost all: set<Arc>)
    requires a in all && State(all)[a] > 0
    modifies a, a.chain
    ensures CanUnstep(old(State(all)), a)
    ensures State(all) == Unstepped(old(State(all)), a)
  {
    a.Unstep();
  }

  method RestoreArc(a: Arc, ghost all: set<Arc>)
    requires a in all
    modifies a, a.chain
    ensures State(all) == Stepped(old(State(all)), a)
  {
    a.Restore();
  }

  lemma StepUnstep(m: Levels, a: Arc)
    ensures CanUnstep(Stepped(m, a), a)
    ensures Unstepped(Stepped(m, a), a) == m
  {
  }

  lemma UnstepStep(m: Levels, a: Arc)
    requires CanUnstep(m, a)
    ensures Stepped(Unstepped(m, a), a) == m
  {
  }

  /** Only cells of these arcs rose. */
  ghost predicate RisesOn(arcs: seq<Arc>, m: Levels, o: Levels) {
    forall a :: a in m && a in o && m[a] < o[a] ==> exists b :: b in arcs && SameCell(b, a)
  }

  lemma RisesOnTrans(arcs: seq<Arc>, m: Levels, mid: Levels, o: Levels)
    requires m.Keys == mid.Keys == o.Keys && RisesOn(arcs, m, mid) && RisesOn(arcs, mid, o)
    ensures RisesOn(arcs, m, o)
  {
    forall a | a in m && m[a] < o[a] ensures exists b :: b in arcs && SameCell(b, a) {
      assert m[a] < mid[a] || mid[a] < o[a];
    }
  }

  lemma RisesOnMore(arcs: seq<Arc>, more: seq<Arc>, m: Levels, o: Levels)
    requires RisesOn(arcs, m, o) && forall a :: a in arcs ==> a in more
    ensures RisesOn(more, m, o)
  {
  }

  lemma StillOn(arcs: seq<Arc>, m: Levels)
    ensures RisesOn(arcs, m, m)
  {
  }

  lemma CoherentStep(m: Levels, a: Arc)
    requires Coherent(m)
    ensures Coherent(Stepped(m, a))
  {
  }

  lemma StepAdvances(nodes: seq<Node>, m: Levels, a: Arc)
    requires Sound(nodes, m) && Steppable(a, m)
    ensures Sound(nodes, Stepped(m, a)) && Advanced(m, Stepped(m, a), a.Affected())
    ensures RisesOn([a], m, Stepped(m, a))
  {
    hide All, NodeArcs, RingArcs;
    CoherentStep(m, a);
    assert m[a] < Stepped(m, a)[a];
    assert a in [a];
  }

  // -------------------------------------------------------------------- moves

  /** What a step of the stage leaves behind: the levels and the nodes it touched. */
  datatype Move = Move(levels: Levels, touched: set<Key>)

  ghost function Then(s: Move, t: Move): Move {
    Move(t.levels, s.touched + t.touched)
  }

  /** A move that starts at m keeps levels sound and only raises them. */
  ghost predicate IsAdvance(nodes: seq<Node>, m: Levels, s: Move) {
    Sound(nodes, s.levels) && Advanced(m, s.levels, s.touched)
  }

  lemma ThenAdvances(nodes: seq<Node>, m: Levels, s: Move, t: Move)
    requires IsAdvance(nodes, m, s) && IsAdvance(nodes, s.levels, t)
    ensures IsAdvance(nodes, m, Then(s, t)) && (s.touched == {} ==> s.levels == m)
  {
    AdvancedTrans(m, s.levels, t.levels, s.touched, t.touched);
    IdleIsIdle(m, s.levels, s.touched);
  }

  lemma IdleAdvance(nodes: seq<Node>, m: Levels)
    requires Sound(nodes, m)
    ensures IsAdvance(nodes, m, Move(m, {}))
  {
    AdvancedStill(m);
  }

  /** How many of the arcs are on b's cell. */
  ghost function Hits(arcs: seq<Arc>, b: Arc): nat {
    if arcs == [] then 0 else Hits(arcs[..|arcs| - 1], b) + if SameCell(arcs[|arcs| - 1], b) then 1 else 0
  }

  /** The levels after every one of the arcs stepped once: up by one per listing of the cell, at most to the top. */
  ghost function Climbed(arcs: seq<Arc>, m: Levels): Levels {
    map b | b in m :: if m[b] + Hits(arcs, b) <= b.Top() then m[b] + Hits(arcs, b) else b.Top()
  }

  /** The nodes affected by the arcs that had a level left when their turn came. */
  ghost function Climbers(arcs: seq<Arc>, m: Levels): set<Key> {
    if arcs == [] then {}
    else
      var front := arcs[..|arcs| - 1];
      Climbers(front, m) + if Steppable(arcs[|arcs| - 1], Climbed(front, m)) then arcs[|arcs| - 1].Affected() else {}
  }

  ghost function ClimbMove(arcs: seq<Arc>, m: Levels): Move {
    Move(Climbed(arcs, m), Climbers(arcs, m))
  }

  lemma ClimbNone(m: Levels)
    requires InRange(m)
    ensures ClimbMove([], m) == Move(m, {})
  {
  }

  /** One arc more is one step more. */
  lemma ClimbOne(arcs: seq<Arc>, a: Arc, m: Levels)
    requires a in m && InRange(m) && Coherent(Climbed(arcs, m))
    ensures ClimbMove(arcs + [a], m) ==
            if Steppable(a, Climbed(arcs, m))
            then Then(ClimbMove(arcs, m), Move(Stepped(Climbed(arcs, m), a), a.Affected()))
            else ClimbMove(arcs, m)
  {
    var more := arcs + [a];
    assert more[..|more| - 1] == arcs;
    var o, q := Climbed(arcs, m), Climbed(more, m);
    forall b | b in m ensures q[b] == if Steppable(a, o) && SameCell(a, b) then o[b] + 1 else o[b] {
      assert SameCell(a, b) ==> o[a] == o[b] && a.Top() == b.Top();
    }
    assert Steppable(a, o) ==> q == Stepped(o, a);
    assert !Steppable(a, o) ==> q == o;
  }

  lemma {:induction false} HitsMember(arcs: seq<Arc>, a: Arc)
    requires a in arcs
    ensures Hits(arcs, a) > 0
  {
    var front, last := arcs[..|arcs| - 1], arcs[|arcs| - 1];
    assert arcs == front + [last];
    if a != last {
      HitsMember(front, a);
    }
  }

  /** Every arc that can step rises. */
  lemma ClimbRaises(arcs: seq<Arc>, m: Levels)
    ensures forall a :: a in arcs && Steppable(a, m) ==> m[a] < Climbed(arcs, m)[a]
  {
    forall a | a in arcs && Steppable(a, m) ensures m[a] < Climbed(arcs, m)[a] {
      HitsMember(arcs, a);
    }
  }

  lemma ClimbStep(nodes: seq<Node>, arcs: seq<Arc>, a: Arc, m: Levels)
    requires Sound(nodes, m) && a in m && IsAdvance(nodes, m, ClimbMove(arcs, m)) && RisesOn(arcs, m, Climbed(arcs, m))
    ensures IsAdvance(nodes, m, ClimbMove(arcs + [a], m)) && RisesOn(arcs + [a], m, Climbed(arcs + [a], m))
  {
    hide Sound, Advanced, Climbed, Climbers, RisesOn, Stepped;
    var o, more := Climbed(arcs, m), arcs + [a];
    SoundParts(nodes, m);
    SoundParts(nodes, o);
    ClimbOne(arcs, a, m);
    RisesOnMore(arcs, more, m, o);
    if Steppable(a, o) {
      StepAdvances(nodes, o, a);
      ThenAdvances(nodes, m, ClimbMove(arcs, m), Move(Stepped(o, a), a.Affected()));
      RisesOnMore([a], more, o, Stepped(o, a));
      SoundParts(nodes, Stepped(o, a));
      RisesOnTrans(more, m, o, Stepped(o, a));
    }
  }

  /** Stepping all the arcs only raises their own cells. */
  lemma {:induction false} ClimbAdvances(nodes: seq<Node>, arcs: seq<Arc>, m: Levels)
    requires Sound(nodes, m) && forall a :: a in arcs ==> a in m
    ensures IsAdvance(nodes, m, ClimbMove(arcs, m)) && RisesOn(arcs, m, Climbed(arcs, m))
  {
    hide Sound, Advanced, Climbed, Climbers, RisesOn;
    SoundParts(nodes, m);
    if arcs == [] {
      ClimbNone(m);
      IdleAdvance(nodes, m);
      StillOn(arcs, m);
    } else {
      var front, a := arcs[..|arcs| - 1], arcs[|arcs| - 1];
      assert arcs == front + [a] && a in arcs;
      ClimbAdvances(nodes, front, m);
      ClimbStep(nodes, front, a, m);
    }
  }

  /** It touches nothing exactly when none of them can step. */
  lemma ClimbIdle(nodes: seq<Node>, arcs: seq<Arc>, m: Levels)
    requires Sound(nodes, m) && forall a :: a in arcs ==> a in m
    ensures Climbers(arcs, m) == {} <==> Exhausted(arcs, m)
  {
    hide Sound, Climbers, Climbed, RisesOn;
    ClimbAdvances(nodes, arcs, m);
    ClimbRaises(arcs, m);
    SoundParts(nodes, Climbed(arcs, m));
    assert Rises(m, Climbed(arcs, m));
    IdleIsIdle(m, Climbed(arcs, m), Climbers(arcs, m));
    if Exhausted(arcs, m) {
      ExhaustedStill(nodes, arcs, m, Climbed(arcs, m));
    }
  }

  lemma ExhaustedStill(nodes: seq<Node>, arcs: seq<Arc>, m: Levels, o: Levels)
    requires Sound(nodes, m) && (forall b :: b in arcs ==> b in m) && Exhausted(arcs, m)
    requires Rises(m, o) && InRange(o) && RisesOn(arcs, m, o)
    ensures m == o
  {
    hide WellFormed, All;
    forall a | a in m ensures m[a] == o[a] {
      if b :| b in arcs && SameCell(b, a) {
        assert !Steppable(b, m) && a.Top() == b.Top() == m[a];
      }
    }
  }

  // -------------------------------------------------------------------- trial

  /** Candidate order: distance to the failure point, then ring, then position. */
  predicate NotAfter(probe: Probe, a: Arc, b: Arc) {
    probe(a) < probe(b) ||
    (probe(a) == probe(b) && (a.ringIndex < b.ringIndex || (a.ringIndex == b.ringIndex && a.s0 <= b.s0)))
  }

  ghost predicate Ordered(probe: Probe, s: seq<Arc>) {
    forall i, j :: 0 <= i < j < |s| ==> NotAfter(probe, s[i], s[j])
  }

  function Insert(probe: Probe, s: seq<Arc>, a: Arc): (r: seq<Arc>)
    requires Ordered(probe, s)
    ensures Ordered(probe, r) && a in r
    ensures (forall b :: b in s ==> b in r) && forall b :: b in r ==> b == a || b in s
  {
    if s == [] then [a]
    else if NotAfter(probe, s[|s| - 1], a) then s + [a]
    else
      var front := Insert(probe, s[..|s| - 1], a);
      var last := s[|s| - 1];
      assert forall i :: 0 <= i < |front| ==> front[i] in front && (front[i] == a || front[i] in s[..|s| - 1]);
      assert forall i :: 0 <= i < |front| ==> NotAfter(probe, front[i], last);
      assert s == s[..|s| - 1] + [last];
      front + [last]
  }

  /** The arcs a trial may step, nearest first. */
  ghost function CandidatesOf(arcs: seq<Arc>, probe: Probe, m: Levels): (r: seq<Arc>)
    ensures Ordered(probe, r)
    ensures forall a :: a in r ==> a in arcs && a.long && Steppable(a, m)
    ensures forall a :: a in arcs && a.long && Steppable(a, m) ==> a in r
  {
    if arcs == [] then []
    else
      var front, a := arcs[..|arcs| - 1], arcs[|arcs| - 1];
      assert arcs == front + [a];
      var r := CandidatesOf(front, probe, m);
      if a.long && Steppable(a, m) then Insert(probe, r, a) else r
  }

  method Candidates(arcs: seq<Arc>, probe: Probe, ghost all: set<Arc>) returns (cands: seq<Arc>)
    requires forall a :: a in arcs ==> a in all
    ensures cands == CandidatesOf(arcs, probe, State(all))
  {
    cands := [];
    for i := 0 to |arcs|
      invariant cands == CandidatesOf(arcs[..i], probe, State(all))
    {
      assert arcs[..i + 1][..i] == arcs[..i];
      if arcs[i].long && !arcs[i].Reverted() {
        cands := Insert(probe, cands, arcs[i]);
      }
    }
    assert arcs[..|arcs|] == arcs;
  }

  ghost predicate SameSig(arcs: seq<Arc>, sig: seq<nat> -> int, m: Levels, a: Arc) {
    sig(Vector(arcs, Stepped(m, a))) == sig(Vector(arcs, m))
  }

  /** The first of the candidates from i on whose step changes the signature; their number when there is none. */
  ghost function FirstChange(arcs: seq<Arc>, cands: seq<Arc>, sig: seq<nat> -> int, m: Levels, i: nat): (k: nat)
    requires i <= |cands|
    ensures i <= k <= |cands| && forall j :: i <= j < k ==> SameSig(arcs, sig, m, cands[j])
    ensures k < |cands| ==> !SameSig(arcs, sig, m, cands[k])
    decreases |cands| - i
  {
    if i == |cands| || !SameSig(arcs, sig, m, cands[i]) then i else FirstChange(arcs, cands, sig, m, i + 1)
  }

  ghost function TrialMove(arcs: seq<Arc>, probe: Probe, sig: seq<nat> -> int, m: Levels): Move {
    var cands := CandidatesOf(arcs, probe, m);
    if cands == [] then Move(m, {})
    else
      var k := FirstChange(arcs, cands, sig, m, 0);
      var a := cands[if k < |cands| then k else 0];
      Move(Stepped(m, a), a.Affected())
  }

  /** What a trial does: it steps the first candidate whose step changes the failure signature; if no candidate's
      step does, the nearest one steps anyway; without candidates nothing happens. */
  ghost predicate TrialOutcome(arcs: seq<Arc>, cands: seq<Arc>, sig: seq<nat> -> int, m: Levels, s: Move) {
    if cands == [] then s == Move(m, {})
    else exists i :: 0 <= i < |cands| && s == Move(Stepped(m, cands[i]), cands[i].Affected()) &&
                     (forall k :: 0 <= k < i ==> SameSig(arcs, sig, m, cands[k])) &&
                     (SameSig(arcs, sig, m, cands[i]) ==>
                        i == 0 && forall k :: 0 <= k < |cands| ==> SameSig(arcs, sig, m, cands[k]))
  }

  /** Only one move fits the description. */
  lemma TrialUnique(arcs: seq<Arc>, probe: Probe, sig: seq<nat> -> int, m: Levels, s: Move)
    ensures TrialOutcome(arcs, CandidatesOf(arcs, probe, m), sig, m, s) <==> s == TrialMove(arcs, probe, sig, m)
  {
    hide SameSig, Stepped;
    var cands := CandidatesOf(arcs, probe, m);
    if cands != [] {
      var k := FirstChange(arcs, cands, sig, m, 0);
      var chosen := if k < |cands| then k else 0;
      assert TrialMove(arcs, probe, sig, m) == Move(Stepped(m, cands[chosen]), cands[chosen].Affected());
      if TrialOutcome(arcs, cands, sig, m, s) {
        var i :| 0 <= i < |cands| && s == Move(Stepped(m, cands[i]), cands[i].Affected()) &&
          (forall k :: 0 <= k < i ==> SameSig(arcs, sig, m, cands[k])) &&
          (SameSig(arcs, sig, m, cands[i]) ==> i == 0 && forall k :: 0 <= k < |cands| ==>
            SameSig(arcs, sig, m, cands[k]));
        assert i == chosen;
      }
    }
  }

  method ReadSig(arcs: seq<Arc>, sig: seq<nat> -> int, ghost all: set<Arc>) returns (v: int)
    requires forall a :: a in arcs ==> a in all
    ensures v == sig(Vector(arcs, State(all)))
  {
    ReadIsVector(arcs, all);
    v := sig(Read(arcs));
  }

  /** Steps a and keeps the step if the signature changes, else takes it back. */
  method TryOne(arcs: seq<Arc>, a: Arc, sig: seq<nat> -> int, sig0: int, ghost all: set<Arc>) returns (kept: bool)
    requires (forall a :: a in arcs ==> a in all) && a in all && Steppable(a, State(all))
    requires sig0 == sig(Vector(arcs, State(all)))
    modifies a, a.chain
    ensures kept == !SameSig(arcs, sig, old(State(all)), a)
    ensures State(all) == if kept then Stepped(old(State(all)), a) else old(State(all))
  {
    hide Cells;
    ghost var m := State(all);
    var moved := StepArc(a, all);
    var v := ReadSig(arcs, sig, all);
    assert State(all) == Stepped(m, a) && v == sig(Vector(arcs, Stepped(m, a)));
    kept := v != sig0;
    if !kept {
      StepUnstep(m, a);
      UnstepArc(a, all);
    }
  }

  lemma Changed(arcs: seq<Arc>, cands: seq<Arc>, sig: seq<nat> -> int, m: Levels, s: Move, i: nat)
    requires i < |cands| && s == Move(Stepped(m, cands[i]), cands[i].Affected())
    requires forall k :: 0 <= k < i ==> SameSig(arcs, sig, m, cands[k])
    requires !SameSig(arcs, sig, m, cands[i]) || (i == 0 && forall k :: 0 <= k < |cands| ==>
               SameSig(arcs, sig, m, cands[k]))
    ensures TrialOutcome(arcs, cands, sig, m, s)
  {
  }

  method TrialStep(arcs: seq<Arc>, probe: Probe, sig: seq<nat> -> int, ghost all: set<Arc>)
    returns (touched: set<Key>, ghost cands: seq<Arc>)
    requires forall a :: a in arcs ==> a in all
    modifies Cells(all)
    ensures Ordered(probe, cands)
    ensures forall a :: a in cands <==> a in arcs && a.long && old(Steppable(a, State(all)))
    ensures TrialOutcome(arcs, cands, sig, old(State(all)), Move(State(all), touched))
    ensures Move(State(all), touched) == TrialMove(arcs, probe, sig, old(State(all)))
  {
    hide State, Stepped, Unstepped, SameCell, Vector, SameSig, Ordered, TrialOutcome, NotAfter, Arc.Affected, TrialMove,
      Steppable, CandidatesOf;
    ghost var m := State(all);
    var list := Candidates(arcs, probe, all);
    cands := list;
    if list == [] {
      touched := {};
      NoCandidates(arcs, sig, m);
      TrialUnique(arcs, probe, sig, m, Move(State(all), touched));
      return;
    }
    assert forall a :: a in list ==> a in all;
    var sig0 := ReadSig(arcs, sig, all);
    for i := 0 to |list|
      invariant State(all) == m && list == cands
      invariant forall k :: 0 <= k < i ==> SameSig(arcs, sig, m, list[k])
    {
      assert list[i] in list;
      var kept := TryOne(arcs, list[i], sig, sig0, all);
      if kept {
        touched := list[i].Affected();
        Changed(arcs, list, sig, m, Move(State(all), touched), i);
        TrialUnique(arcs, probe, sig, m, Move(State(all), touched));
        return;
      }
    }
    assert list[0] in list;
    var moved := StepArc(list[0], all);
    touched := list[0].Affected();
    Changed(arcs, list, sig, m, Move(State(all), touched), 0);
    TrialUnique(arcs, probe, sig, m, Move(State(all), touched));
  }

  lemma NoCandidates(arcs: seq<Arc>, sig: seq<nat> -> int, m: Levels)
    ensures TrialOutcome(arcs, [], sig, m, Move(m, {}))
  {
  }

  /** A trial raises a cell of its arcs, unless no long arc of them can step. */
  lemma TrialAdvances(nodes: seq<Node>, arcs: seq<Arc>, probe: Probe, sig: seq<nat> -> int, m: Levels)
    requires Sound(nodes, m)
    ensures var s := TrialMove(arcs, probe, sig, m);
      IsAdvance(nodes, m, s) && RisesOn(arcs, m, s.levels) && (s.touched == {} <==> NothingLong(arcs, m))
  {
    hide Sound, Advanced, Stepped, RisesOn, Ordered, SameSig;
    var cands := CandidatesOf(arcs, probe, m);
    if cands == [] {
      IdleAdvance(nodes, m);
      StillOn(arcs, m);
    } else {
      var k := FirstChange(arcs, cands, sig, m, 0);
      var a := cands[if k < |cands| then k else 0];
      assert a in cands && a.key in a.Affected();
      StepAdvances(nodes, m, a);
      RisesOnMore([a], arcs, m, Stepped(m, a));
    }
  }

  // --------------------------------------------------------- structural pass

  function RingSig(p: Part, k: nat): seq<nat> -> int {
    s => p.shape.ringSig(k, s)
  }

  /** A trial on ring k of the part alone. */
  ghost function RingMove(p: Part, k: nat, m: Levels): Move {
    if k < |p.rings| then
      var ring := p.rings[k].arcs;
      TrialMove(ring, p.shape.ringProbe(k, Vector(ring, m)), RingSig(p, k), m)
    else Move(m, {})
  }

  /** One trial per listed ring, in turn. */
  ghost function RingsMove(p: Part, bad: seq<nat>, m: Levels): Move {
    if bad == [] then Move(m, {})
    else
      var s := RingsMove(p, bad[..|bad| - 1], m);
      Then(s, RingMove(p, bad[|bad| - 1], s.levels))
  }

  ghost function WholeMove(p: Part, m: Levels): Move {
    TrialMove(RingArcs(p.rings), p.shape.probe(Vector(RingArcs(p.rings), m)), p.shape.sig, m)
  }

  /** Nothing for a valid part; for any other a trial on every ring that fails on its own, then one on the whole part
      if it is still invalid. */
  ghost function PartMove(p: Part, m: Levels): Move {
    if PartValid(p, m) then Move(m, {})
    else
      var s := RingsMove(p, p.shape.bad(Vector(RingArcs(p.rings), m)), m);
      if PartValid(p, s.levels) then s else Then(s, WholeMove(p, s.levels))
  }

  ghost function PartsMove(parts: seq<Part>, m: Levels): Move {
    if parts == [] then Move(m, {})
    else
      var s := PartsMove(parts[..|parts| - 1], m);
      Then(s, PartMove(parts[|parts| - 1], s.levels))
  }

  ghost function StructureMove(nodes: seq<Node>, m: Levels): Move {
    if nodes == [] then Move(m, {})
    else
      var s := StructureMove(nodes[..|nodes| - 1], m);
      Then(s, PartsMove(nodes[|nodes| - 1].parts, s.levels))
  }

  /** One part in the structural pass. */
  method StructuralPart(p: Part, ghost n: Node, ghost nodes: seq<Node>) returns (touched: set<Key>)
    requires WellFormed(nodes) && n in nodes && p in n.parts
    modifies Cells(All(nodes))
    ensures Move(State(All(nodes)), touched) == PartMove(p, old(State(All(nodes))))
    ensures PartValid(p, old(State(All(nodes)))) ==> State(All(nodes)) == old(State(All(nodes))) && touched == {}
  {
    hide Cells, All, State, Vector, TrialMove, TrialOutcome, NodeArcs, Ordered;
    ghost var all := All(nodes);
    ghost var m := State(all);
    var arcs := RingArcs(p.rings);
    PartInAll(nodes, n, p);
    ReadIsVector(arcs, all);
    touched := {};
    if p.shape.valid(Read(arcs)) {
      return;
    }
    var bad := p.shape.bad(Read(arcs));
    for i := 0 to |bad|
      invariant Move(State(all), touched) == RingsMove(p, bad[..i], m)
    {
      var k := bad[i];
      assert k in bad && bad[..i + 1][..i] == bad[..i];
      var ring := p.rings[k].arcs;
      ReadIsVector(ring, all);
      var more, _ := TrialStep(ring, p.shape.ringProbe(k, Read(ring)), RingSig(p, k), all);
      touched := touched + more;
    }
    assert bad[..|bad|] == bad;
    ReadIsVector(arcs, all);
    if p.shape.valid(Read(arcs)) {
      return;
    }
    var more, _ := TrialStep(arcs, p.shape.probe(Read(arcs)), p.shape.sig, all);
    touched := touched + more;
  }

  method StructuralNode(n: Node, ghost nodes: seq<Node>) returns (touched: set<Key>)
    requires WellFormed(nodes) && n in nodes
    modifies Cells(All(nodes))
    ensures Move(State(All(nodes)), touched) == PartsMove(n.parts, old(State(All(nodes))))
  {
    hide Cells, All, State, WellFormed, PartMove, RingArcs, NodeArcs;
    ghost var m := State(All(nodes));
    touched := {};
    for i := 0 to |n.parts|
      invariant Move(State(All(nodes)), touched) == PartsMove(n.parts[..i], m)
    {
      assert n.parts[..i + 1][..i] == n.parts[..i];
      var more := StructuralPart(n.parts[i], n, nodes);
      touched := touched + more;
    }
    assert n.parts[..|n.parts|] == n.parts;
  }

  /** The structural pass over all nodes. */
  method StructuralPass(nodes: seq<Node>) returns (touched: set<Key>)
    requires WellFormed(nodes)
    modifies Cells(All(nodes))
    ensures Move(State(All(nodes)), touched) == StructureMove(nodes, old(State(All(nodes))))
  {
    hide Cells, All, State, WellFormed, PartsMove;
    ghost var m := State(All(nodes));
    touched := {};
    for i := 0 to |nodes|
      invariant Move(State(All(nodes)), touched) == StructureMove(nodes[..i], m)
    {
      assert nodes[..i + 1][..i] == nodes[..i];
      var more := StructuralNode(nodes[i], nodes);
      touched := touched + more;
    }
    assert nodes[..|nodes|] == nodes;
  }

  /** At levels w arc b is of a part that is not valid, or of a node whose parts are all valid and whose guard fails. */
  ghost predicate FaultAt(n: Node, w: Levels, b: Arc) {
    (exists p :: p in n.parts && b in RingArcs(p.rings) && !PartValid(p, w)) ||
    (b in NodeArcs(n.parts) && AllValid(n, w) && !Guarded(n, w))
  }

  /** On the way from m to o the levels were w, and then an arc on the cell of a was at fault. */
  ghost predicate BlamedAt(nodes: seq<Node>, m: Levels, w: Levels, o: Levels, a: Arc) {
    Rises(m, w) && Rises(w, o) &&
    exists n, b :: n in nodes && b in NodeArcs(n.parts) && SameCell(b, a) && FaultAt(n, w, b)
  }

  lemma BlameTrans(nodes: seq<Node>, m: Levels, mid: Levels, o: Levels)
    requires Rises(m, mid) && Rises(mid, o)
    requires forall a :: a in m && m[a] < mid[a] ==> exists w :: BlamedAt(nodes, m, w, mid, a)
    requires forall a :: a in m && mid[a] < o[a] ==> exists w :: BlamedAt(nodes, mid, w, o, a)
    ensures forall a :: a in m && m[a] < o[a] ==> exists w :: BlamedAt(nodes, m, w, o, a)
  {
    hide FaultAt;
    forall a | a in m && m[a] < o[a] ensures exists w :: BlamedAt(nodes, m, w, o, a) {
      if m[a] < mid[a] {
        var w :| BlamedAt(nodes, m, w, mid, a);
        assert BlamedAt(nodes, m, w, o, a);
      } else {
        var w :| BlamedAt(nodes, mid, w, o, a);
        assert BlamedAt(nodes, m, w, o, a);
      }
    }
  }

  /** Levels that rose on the cells of arcs at fault. */
  lemma BlameOn(nodes: seq<Node>, n: Node, arcs: seq<Arc>, m: Levels, o: Levels)
    requires n in nodes && Rises(m, o) && RisesOn(arcs, m, o)
    requires forall b :: b in arcs ==> FaultAt(n, m, b) && b in NodeArcs(n.parts)
    ensures forall a :: a in m && m[a] < o[a] ==> exists w :: BlamedAt(nodes, m, w, o, a)
  {
    hide FaultAt;
    forall a | a in m && m[a] < o[a] ensures exists w :: BlamedAt(nodes, m, w, o, a) {
      var b :| b in arcs && SameCell(b, a);
      assert FaultAt(n, m, b);
      assert BlamedAt(nodes, m, m, o, a);
    }
  }

  /** Single-ring trials only raise the part's own cells, and nothing when none of its long arcs can step. */
  lemma {:induction false} RingsAdvance(nodes: seq<Node>, n: Node, p: Part, bad: seq<nat>, m: Levels)
    requires Sound(nodes, m) && n in nodes && p in n.parts
    ensures var s := RingsMove(p, bad, m); IsAdvance(nodes, m, s) && RisesOn(RingArcs(p.rings), m, s.levels) &&
                                           (NothingLong(RingArcs(p.rings), m) ==> s.touched == {})
  {
    hide Sound, Advanced, RisesOn, TrialMove, RingArcs, NodeArcs;
    if bad == [] {
      IdleAdvance(nodes, m);
      StillOn(RingArcs(p.rings), m);
    } else {
      var s, k := RingsMove(p, bad[..|bad| - 1], m), bad[|bad| - 1];
      RingsAdvance(nodes, n, p, bad[..|bad| - 1], m);
      var t := RingMove(p, k, s.levels);
      RingAdvances(nodes, n, p, k, s.levels);
      ThenAdvances(nodes, m, s, t);
      SoundParts(nodes, m);
      SoundParts(nodes, s.levels);
      SoundParts(nodes, t.levels);
      RisesOnTrans(RingArcs(p.rings), m, s.levels, t.levels);
    }
  }

  lemma RingAdvances(nodes: seq<Node>, n: Node, p: Part, k: nat, m: Levels)
    requires Sound(nodes, m) && n in nodes && p in n.parts
    ensures var s := RingMove(p, k, m); IsAdvance(nodes, m, s) && RisesOn(RingArcs(p.rings), m, s.levels) &&
                                        (NothingLong(RingArcs(p.rings), m) ==> s.touched == {})
  {
    hide Sound, Advanced, RisesOn, TrialMove, RingArcs, NodeArcs;
    PartInAll(nodes, n, p);
    if k < |p.rings| {
      var ring := p.rings[k].arcs;
      TrialAdvances(nodes, ring, p.shape.ringProbe(k, Vector(ring, m)), RingSig(p, k), m);
      RisesOnMore(ring, RingArcs(p.rings), m, RingMove(p, k, m).levels);
    } else {
      IdleAdvance(nodes, m);
      StillOn(RingArcs(p.rings), m);
    }
  }

  /** The structural pass leaves a part alone exactly when it is valid or none of its long arcs can step; otherwise it
      raises cells of that part, which is not valid, and no others. */
  lemma PartAdvances(nodes: seq<Node>, n: Node, p: Part, m: Levels)
    requires Sound(nodes, m) && n in nodes && p in n.parts
    ensures var s := PartMove(p, m);
      IsAdvance(nodes, m, s) && RisesOn(RingArcs(p.rings), m, s.levels) && (s.touched == {} <==> PartDone(p, m))
    ensures PartValid(p, m) ==> PartMove(p, m) == Move(m, {})
  {
    hide Sound, Advanced, RisesOn, RingsMove, TrialMove, RingArcs, Vector, NothingLong;
    var arcs, bad := RingArcs(p.rings), p.shape.bad(Vector(RingArcs(p.rings), m));
    if PartValid(p, m) {
      IdleAdvance(nodes, m);
      StillOn(arcs, m);
    } else {
      var s := RingsMove(p, bad, m);
      RingsAdvance(nodes, n, p, bad, m);
      IdleIsIdle(m, s.levels, s.touched);
      if !PartValid(p, s.levels) {
        var t := WholeMove(p, s.levels);
        TrialAdvances(nodes, arcs, p.shape.probe(Vector(arcs, s.levels)), p.shape.sig, s.levels);
        ThenAdvances(nodes, m, s, t);
        SoundParts(nodes, m);
        SoundParts(nodes, s.levels);
        SoundParts(nodes, t.levels);
        RisesOnTrans(arcs, m, s.levels, t.levels);
      }
    }
  }

  lemma PartBlamed(nodes: seq<Node>, n: Node, p: Part, m: Levels)
    requires Sound(nodes, m) && n in nodes && p in n.parts
    ensures var o := PartMove(p, m).levels;
      Rises(m, o) && forall a :: a in m && m[a] < o[a] ==> exists w :: BlamedAt(nodes, m, w, o, a)
  {
    hide Sound, PartMove, PartValid, RisesOn, BlamedAt, RingArcs, NodeArcs;
    PartAdvances(nodes, n, p, m);
    PartInAll(nodes, n, p);
    if !PartValid(p, m) {
      BlameOn(nodes, n, RingArcs(p.rings), m, PartMove(p, m).levels);
    }
  }

  lemma {:induction false} PartsAdvance(nodes: seq<Node>, n: Node, k: nat, m: Levels)
    requires Sound(nodes, m) && n in nodes && k <= |n.parts|
    ensures var s := PartsMove(n.parts[..k], m);
      IsAdvance(nodes, m, s) && (s.touched == {} <==> forall i :: 0 <= i < k ==> PartDone(n.parts[i], m)) &&
      Rises(m, s.levels) && forall a :: a in m && m[a] < s.levels[a] ==> exists w :: BlamedAt(nodes, m, w, s.levels, a)
  {
    hide Sound, PartMove, PartDone, RisesOn, BlamedAt, Advanced, WellFormed, All, Coherent, InRange, RingArcs, NodeArcs;
    if k == 0 {
      IdleAdvance(nodes, m);
    } else {
      assert n.parts[..k][..k - 1] == n.parts[..k - 1] && n.parts[k - 1] in n.parts;
      var s := PartsMove(n.parts[..k - 1], m);
      var t := PartMove(n.parts[k - 1], s.levels);
      PartsAdvance(nodes, n, k - 1, m);
      PartAdvances(nodes, n, n.parts[k - 1], s.levels);
      PartBlamed(nodes, n, n.parts[k - 1], s.levels);
      ThenAdvances(nodes, m, s, t);
      BlameTrans(nodes, m, s.levels, t.levels);
    }
  }

  /** The structural pass moves nothing exactly when every part is valid or stuck, and raises only cells of parts that
      were not valid when their turn came. */
  lemma {:induction false} StructureAdvances(nodes: seq<Node>, k: nat, m: Levels)
    requires Sound(nodes, m) && k <= |nodes|
    ensures var s := StructureMove(nodes[..k], m);
      IsAdvance(nodes, m, s) && (s.touched == {} <==> forall i :: 0 <= i < k ==> StructureDone(nodes[i], m)) &&
      Rises(m, s.levels) && forall a :: a in m && m[a] < s.levels[a] ==> exists w :: BlamedAt(nodes, m, w, s.levels, a)
  {
    hide Sound, PartsMove, PartDone, RisesOn, BlamedAt, Advanced, WellFormed, All, Coherent, InRange;
    if k == 0 {
      IdleAdvance(nodes, m);
    } else {
      var n := nodes[k - 1];
      assert nodes[..k][..k - 1] == nodes[..k - 1] && n.parts[..|n.parts|] == n.parts;
      var s := StructureMove(nodes[..k - 1], m);
      var t := PartsMove(n.parts, s.levels);
      StructureAdvances(nodes, k - 1, m);
      PartsAdvance(nodes, n, |n.parts|, s.levels);
      ThenAdvances(nodes, m, s, t);
      BlameTrans(nodes, m, s.levels, t.levels);
      assert t.touched == {} <==> StructureDone(n, s.levels);
    }
  }

  // -------------------------------------------------------------- guard pass

  method PartsValid(n: Node, ghost nodes: seq<Node>) returns (valid: bool)
    requires n in nodes
    ensures valid == AllValid(n, State(All(nodes)))
  {
    for i := 0 to |n.parts|
      invariant forall j :: 0 <= j < i ==> PartValid(n.parts[j], State(All(nodes)))
    {
      var arcs := RingArcs(n.parts[i].rings);
      PartInAll(nodes, n, n.parts[i]);
      ReadIsVector(arcs, All(nodes));
      if !n.parts[i].shape.valid(Read(arcs)) {
        assert !PartValid(n.parts[i], State(All(nodes)));
        return false;
      }
    }
    return true;
  }

  /** Steps every one of the arcs that can. */
  method StepAll(arcs: seq<Arc>, ghost all: set<Arc>) returns (touched: set<Key>)
    requires (forall a :: a in arcs ==> a in all) && InRange(State(all))
    modifies Cells(all)
    ensures Move(State(all), touched) == ClimbMove(arcs, old(State(all)))
  {
    hide Cells, InRange, Steppable, Stepped, Coherent, Climbed, Climbers;
    ghost var m := State(all);
    touched := {};
    ClimbNone(m);
    assert arcs[..0] == [];
    for i := 0 to |arcs|
      invariant Move(State(all), touched) == ClimbMove(arcs[..i], m)
    {
      assert arcs[..i + 1] == arcs[..i] + [arcs[i]];
      StateCoherent(all);
      assert arcs[i] in arcs;
      InCells(arcs[i], all);
      ClimbOne(arcs[..i], arcs[i], m);
      var moved := StepArc(arcs[i], all);
      if moved {
        touched := touched + arcs[i].Affected();
      }
    }
    assert arcs[..|arcs|] == arcs;
  }

  lemma InCells(a: Arc, all: set<Arc>)
    requires a in all
    ensures a in Cells(all) && (a.chain != null ==> a.chain in Cells(all))
  {
  }

  /** What the guard does to a node: nothing unless all its parts are valid and it fails; then every arc of the node
      steps. */
  ghost function GuardMove(n: Node, m: Levels): Move {
    if AllValid(n, m) && !Guarded(n, m) then ClimbMove(NodeArcs(n.parts), m) else Move(m, {})
  }

  lemma ArcsInAll(nodes: seq<Node>, n: Node)
    requires n in nodes
    ensures forall a :: a in NodeArcs(n.parts) ==> a in All(nodes)
  {
  }

  /** The guard on one node: passed, or not examined because a part is invalid, or every arc stepped. */
  method GuardNode(n: Node, ghost nodes: seq<Node>) returns (passed: bool, touched: set<Key>)
    requires n in nodes && InRange(State(All(nodes)))
    modifies Cells(All(nodes))
    ensures passed == old(Accepted(n, State(All(nodes))))
    ensures Move(State(All(nodes)), touched) == GuardMove(n, old(State(All(nodes))))
  {
    hide All, AllValid, Climbed, Climbers, InRange;
    ghost var m := State(All(nodes));
    var valid := PartsValid(n, nodes);
    assert State(All(nodes)) == m;
    if !valid {
      return false, {};
    }
    var arcs := NodeArcs(n.parts);
    ArcsInAll(nodes, n);
    ReadIsVector(arcs, All(nodes));
    if n.ok(Read(arcs)) {
      return true, {};
    }
    passed := false;
    touched := StepAll(arcs, All(nodes));
  }

  ghost function GuardsMove(nodes: seq<Node>, dirty: set<Key>, m: Levels): Move {
    if nodes == [] then Move(m, {})
    else
      var s, n := GuardsMove(nodes[..|nodes| - 1], dirty, m), nodes[|nodes| - 1];
      if n.key in dirty then Then(s, GuardMove(n, s.levels)) else s
  }

  /** The dirty nodes that were accepted when their turn came. */
  ghost function Passed(nodes: seq<Node>, dirty: set<Key>, m: Levels): set<Key> {
    if nodes == [] then {}
    else
      var front, n := nodes[..|nodes| - 1], nodes[|nodes| - 1];
      Passed(front, dirty, m) +
      if n.key in dirty && Accepted(n, GuardsMove(front, dirty, m).levels) then {n.key} else {}
  }

  lemma GuardAdvances(nodes: seq<Node>, n: Node, m: Levels)
    requires Sound(nodes, m) && n in nodes
    ensures var s := GuardMove(n, m);
      IsAdvance(nodes, m, s) && (s.touched == {} <==> GuardDone(n, m)) &&
      Rises(m, s.levels) && forall a :: a in m && m[a] < s.levels[a] ==> exists w :: BlamedAt(nodes, m, w, s.levels, a)
  {
    hide Sound, RisesOn, BlamedAt, Climbed, Climbers, AllValid, Guarded;
    SoundParts(nodes, m);
    if AllValid(n, m) && !Guarded(n, m) {
      var arcs := NodeArcs(n.parts);
      ClimbAdvances(nodes, arcs, m);
      ClimbIdle(nodes, arcs, m);
      BlameOn(nodes, n, arcs, m, Climbed(arcs, m));
    } else {
      IdleAdvance(nodes, m);
    }
  }

  /** The guard pass moves nothing exactly when every dirty node whose parts are valid passes its guard or is exhausted;
      a node that passed and was not touched is accepted. */
  lemma {:induction false} GuardsAdvance(nodes: seq<Node>, k: nat, dirty: set<Key>, m: Levels)
    requires Sound(nodes, m) && k <= |nodes|
    ensures var s := GuardsMove(nodes[..k], dirty, m);
      IsAdvance(nodes, m, s) &&
      (s.touched == {} <==> forall i :: 0 <= i < k && nodes[i].key in dirty ==> GuardDone(nodes[i], m)) &&
      Rises(m, s.levels) && forall a :: a in m && m[a] < s.levels[a] ==> exists w :: BlamedAt(nodes, m, w, s.levels, a)
  {
    hide Sound, GuardMove, GuardDone, RisesOn, BlamedAt, Advanced, WellFormed, All, Coherent, InRange;
    if k == 0 {
      IdleAdvance(nodes, m);
    } else {
      assert nodes[..k][..k - 1] == nodes[..k - 1];
      var n, s := nodes[k - 1], GuardsMove(nodes[..k - 1], dirty, m);
      GuardsAdvance(nodes, k - 1, dirty, m);
      if n.key in dirty {
        var t := GuardMove(n, s.levels);
        GuardAdvances(nodes, n, s.levels);
        ThenAdvances(nodes, m, s, t);
        BlameTrans(nodes, m, s.levels, t.levels);
      }
    }
  }

  lemma {:induction false} PassedKeys(nodes: seq<Node>, dirty: set<Key>, m: Levels, x: Key)
    requires x in Passed(nodes, dirty, m)
    ensures x in dirty && exists i :: 0 <= i < |nodes| && nodes[i].key == x
  {
    hide Accepted, GuardMove;
    var front, n := nodes[..|nodes| - 1], nodes[|nodes| - 1];
    if x in Passed(front, dirty, m) {
      PassedKeys(front, dirty, m, x);
      var i :| 0 <= i < |front| && front[i].key == x;
      assert nodes[i].key == x;
    }
  }

  /** A node that passed and was not touched is accepted. */
  lemma {:induction false} PassedAccepted(nodes: seq<Node>, k: nat, dirty: set<Key>, m: Levels, i: nat)
    requires Sound(nodes, m) && i < k <= |nodes| && nodes[i].key in Passed(nodes[..k], dirty, m)
    requires nodes[i].key !in GuardsMove(nodes[..k], dirty, m).touched
    ensures Accepted(nodes[i], GuardsMove(nodes[..k], dirty, m).levels)
  {
    hide Sound, GuardMove, Accepted, Settled, Advanced, BlamedAt;
    assert nodes[..k][..k - 1] == nodes[..k - 1];
    var n, s := nodes[k - 1], GuardsMove(nodes[..k - 1], dirty, m);
    GuardsAdvance(nodes, k - 1, dirty, m);
    if i < k - 1 {
      DistinctKeys(nodes, m, i, k - 1);
      PassedAccepted(nodes, k - 1, dirty, m, i);
      if n.key in dirty {
        GuardAdvances(nodes, n, s.levels);
        Untouched(nodes, nodes[i], s.levels, GuardMove(n, s.levels).levels, GuardMove(n, s.levels).touched);
      }
    } else {
      AcceptedStays(n, s.levels);
      if n.key in Passed(nodes[..k - 1], dirty, m) {
        PassedKeys(nodes[..k - 1], dirty, m, n.key);
        var j :| 0 <= j < |nodes[..k - 1]| && nodes[..k - 1][j].key == n.key;
        DistinctKeys(nodes, m, j, k - 1);
      }
    }
  }

  lemma DistinctKeys(nodes: seq<Node>, m: Levels, i: nat, j: nat)
    requires Sound(nodes, m) && i < j < |nodes|
    ensures nodes[i].key != nodes[j].key
  {
  }

  lemma AcceptedStays(n: Node, m: Levels)
    ensures Accepted(n, m) ==> GuardMove(n, m) == Move(m, {})
  {
  }

  method GuardPass(nodes: seq<Node>, dirty: set<Key>) returns (passed: set<Key>, touched: set<Key>)
    requires WellFormed(nodes) && InRange(State(All(nodes)))
    modifies Cells(All(nodes))
    ensures Move(State(All(nodes)), touched) == GuardsMove(nodes, dirty, old(State(All(nodes))))
    ensures passed == Passed(nodes, dirty, old(State(All(nodes))))
  {
    hide Cells, All, State, Advanced, Accepted, GuardMove, WellFormed;
    ghost var m := State(All(nodes));
    passed, touched := {}, {};
    ghost var all := All(nodes);
    SoundState(nodes);
    for i := 0 to |nodes|
      invariant Move(State(all), touched) == GuardsMove(nodes[..i], dirty, m)
      invariant passed == Passed(nodes[..i], dirty, m)
    {
      assert nodes[..i + 1][..i] == nodes[..i];
      GuardsAdvance(nodes, i, dirty, m);
      if nodes[i].key in dirty {
        var ok, more := GuardNode(nodes[i], nodes);
        if ok {
          passed := passed + {nodes[i].key};
        }
        touched := touched + more;
      }
    }
    assert nodes[..|nodes|] == nodes;
  }

  lemma SoundState(nodes: seq<Node>)
    requires WellFormed(nodes) && InRange(State(All(nodes)))
    ensures Sound(nodes, State(All(nodes)))
  {
    StateCoherent(All(nodes));
  }

  // -------------------------------------------------------- what must be moved

  /** One of the arcs is higher in o than in m. */
  ghost predicate SomeRises(arcs: seq<Arc>, m: Levels, o: Levels) {
    exists b :: b in arcs && b in m && b in o && m[b] < o[b]
  }

  lemma SomeRisesMore(arcs: seq<Arc>, m: Levels, mid: Levels, o: Levels)
    requires Rises(m, mid) && Rises(mid, o) && (SomeRises(arcs, m, mid) || SomeRises(arcs, mid, o))
    ensures SomeRises(arcs, m, o)
  {
    if SomeRises(arcs, m, mid) {
      var b :| b in arcs && b in m && b in mid && m[b] < mid[b];
      assert m[b] < o[b];
    } else {
      var b :| b in arcs && b in mid && b in o && mid[b] < o[b];
      assert m[b] < o[b];
    }
  }

  /** A move that touches something on the cells of these arcs raises one of them. */
  lemma CellRises(nodes: seq<Node>, arcs: seq<Arc>, m: Levels, s: Move)
    requires Sound(nodes, m) && IsAdvance(nodes, m, s) && forall a :: a in arcs ==> a in m
    requires s.touched != {} && RisesOn(arcs, m, s.levels)
    ensures Rises(m, s.levels) && SomeRises(arcs, m, s.levels)
  {
    hide WellFormed, All;
    var a :| a in m && m[a] < s.levels[a];
    var b :| b in arcs && SameCell(b, a);
    assert m[b] == m[a] && s.levels[b] == s.levels[a];
  }

  /** Levels rose up to here: either one of the arcs rose, or all stand as they did. */
  lemma RoseOrSame(arcs: seq<Arc>, m: Levels, before: Levels)
    requires Rises(m, before)
    ensures SomeRises(arcs, m, before) || forall a :: a in arcs && a in m ==> m[a] == before[a]
  {
  }

  lemma AdvancedRises(m: Levels, o: Levels, touched: set<Key>)
    requires Advanced(m, o, touched)
    ensures Rises(m, o)
  {
  }

  lemma PartRises(nodes: seq<Node>, n: Node, p: Part, m: Levels, before: Levels)
    requires Sound(nodes, before) && n in nodes && p in n.parts && Rises(m, before) && !PartDone(p, m)
    ensures SomeRises(RingArcs(p.rings), m, PartMove(p, before).levels)
  {
    hide Sound, Advanced, RisesOn, PartMove, NothingLong, RingArcs, NodeArcs, SomeRises, WellFormed, All,
      Coherent, InRange, Vector, BlamedAt;
    var arcs, s := RingArcs(p.rings), PartMove(p, before);
    SoundParts(nodes, before);
    PartAdvances(nodes, n, p, before);
    PartInAll(nodes, n, p);
    AdvancedRises(before, s.levels, s.touched);
    RoseOrSame(arcs, m, before);
    if !SomeRises(arcs, m, before) {
      SameVector(arcs, m, before);
      CellRises(nodes, arcs, before, s);
    }
    SomeRisesMore(arcs, m, before, s.levels);
  }

  /** Every listed ring with a long arc that can step has an arc higher after the single-ring trials; each trial
      raises a level by one at most. */
  lemma {:induction false} RingsRise(nodes: seq<Node>, n: Node, p: Part, bad: seq<nat>, m: Levels, k: nat)
    requires Sound(nodes, m) && n in nodes && p in n.parts && k in bad && k < |p.rings|
    requires !NothingLong(p.rings[k].arcs, m)
    ensures SomeRises(p.rings[k].arcs, m, RingsMove(p, bad, m).levels)
  {
    hide Sound, Advanced, RisesOn, TrialMove, RingArcs, NodeArcs, SomeRises, NothingLong, WellFormed, All, Coherent,
      InRange, Vector;
    var front, last, ring := bad[..|bad| - 1], bad[|bad| - 1], p.rings[k].arcs;
    assert bad == front + [last];
    var s := RingsMove(p, front, m);
    var t := RingMove(p, last, s.levels);
    RingsAdvance(nodes, n, p, front, m);
    RingAdvances(nodes, n, p, last, s.levels);
    AdvancedRises(m, s.levels, s.touched);
    AdvancedRises(s.levels, t.levels, t.touched);
    if k in front {
      RingsRise(nodes, n, p, front, m, k);
    } else {
      RoseOrSame(ring, m, s.levels);
      if !SomeRises(ring, m, s.levels) {
        SameVector(ring, m, s.levels);
        var probe := p.shape.ringProbe(k, Vector(ring, s.levels));
        TrialAdvances(nodes, ring, probe, RingSig(p, k), s.levels);
        PartInAll(nodes, n, p);
        SoundParts(nodes, s.levels);
        CellRises(nodes, ring, s.levels, t);
      }
    }
    SomeRisesMore(ring, m, s.levels, t.levels);
  }

  lemma TrialBounded(arcs: seq<Arc>, probe: Probe, sig: seq<nat> -> int, m: Levels)
    ensures var o := TrialMove(arcs, probe, sig, m).levels;
      o.Keys == m.Keys && forall a :: a in m ==> m[a] <= o[a] <= m[a] + 1
  {
    hide CandidatesOf, FirstChange, SameSig;
  }

  lemma {:induction false} RingsBounded(p: Part, bad: seq<nat>, m: Levels)
    ensures var o := RingsMove(p, bad, m).levels;
      o.Keys == m.Keys && forall a :: a in m ==> m[a] <= o[a] <= m[a] + |bad|
  {
    hide TrialMove;
    if bad != [] {
      var s, k := RingsMove(p, bad[..|bad| - 1], m), bad[|bad| - 1];
      RingsBounded(p, bad[..|bad| - 1], m);
      if k < |p.rings| {
        TrialBounded(p.rings[k].arcs, p.shape.ringProbe(k, Vector(p.rings[k].arcs, s.levels)), RingSig(p, k), s.levels);
      }
    }
  }

  /** On a part that is not valid the structural pass tries every ring that fails on its own once and the whole part
      once: each such ring with a long arc that can step has an arc higher, and no level rises by more than the trials
      made. */
  lemma PartTrials(nodes: seq<Node>, n: Node, p: Part, m: Levels)
    requires Sound(nodes, m) && n in nodes && p in n.parts && !PartValid(p, m)
    ensures var o, bad := PartMove(p, m).levels, p.shape.bad(Vector(RingArcs(p.rings), m));
      o.Keys == m.Keys && (forall a :: a in m ==> m[a] <= o[a] <= m[a] + |bad| + 1) &&
      forall k :: k in bad && k < |p.rings| && !NothingLong(p.rings[k].arcs, m) ==> SomeRises(p.rings[k].arcs, m, o)
  {
    hide TrialMove, RingsMove, SomeRises, NothingLong, Sound, RingArcs, NodeArcs, Vector;
    var arcs := RingArcs(p.rings);
    var bad, o := p.shape.bad(Vector(arcs, m)), PartMove(p, m).levels;
    var s := RingsMove(p, bad, m);
    RingsBounded(p, bad, m);
    TrialBounded(arcs, p.shape.probe(Vector(arcs, s.levels)), p.shape.sig, s.levels);
    forall k | k in bad && k < |p.rings| && !NothingLong(p.rings[k].arcs, m)
      ensures SomeRises(p.rings[k].arcs, m, o)
    {
      RingsRise(nodes, n, p, bad, m, k);
      SomeRisesMore(p.rings[k].arcs, m, s.levels, o);
    }
  }

  /** Every part that is not done when the pass over its node starts has an arc higher when it ends. */
  lemma {:induction false} PartsRise(nodes: seq<Node>, n: Node, k: nat, i: nat, m: Levels, before: Levels)
    requires Sound(nodes, before) && n in nodes && i < k <= |n.parts| && Rises(m, before) && !PartDone(n.parts[i], m)
    ensures SomeRises(RingArcs(n.parts[i].rings), m, PartsMove(n.parts[..k], before).levels)
  {
    hide Sound, Advanced, PartMove, PartDone, BlamedAt, SomeRises;
    assert n.parts[..k][..k - 1] == n.parts[..k - 1] && n.parts[k - 1] in n.parts;
    var s := PartsMove(n.parts[..k - 1], before);
    PartsAdvance(nodes, n, k - 1, before);
    var t := PartMove(n.parts[k - 1], s.levels);
    if i < k - 1 {
      PartsRise(nodes, n, k - 1, i, m, before);
      PartAdvances(nodes, n, n.parts[k - 1], s.levels);
      AdvancedRises(s.levels, t.levels, t.touched);
      SomeRisesMore(RingArcs(n.parts[i].rings), m, s.levels, t.levels);
    } else {
      PartRises(nodes, n, n.parts[i], m, s.levels);
    }
  }

  /** So does the pass over all nodes. */
  lemma {:induction false} StructureRises(nodes: seq<Node>, k: nat, j: nat, i: nat, m: Levels)
    requires Sound(nodes, m) && j < k <= |nodes| && i < |nodes[j].parts| && !PartDone(nodes[j].parts[i], m)
    ensures SomeRises(RingArcs(nodes[j].parts[i].rings), m, StructureMove(nodes[..k], m).levels)
  {
    hide Sound, Advanced, PartsMove, PartDone, BlamedAt, SomeRises, StructureDone;
    var n := nodes[k - 1];
    assert nodes[..k][..k - 1] == nodes[..k - 1] && n.parts[..|n.parts|] == n.parts;
    var s := StructureMove(nodes[..k - 1], m);
    StructureAdvances(nodes, k - 1, m);
    if j < k - 1 {
      StructureRises(nodes, k - 1, j, i, m);
      PartsAdvance(nodes, n, |n.parts|, s.levels);
      SomeRisesMore(RingArcs(nodes[j].parts[i].rings), m, s.levels, PartsMove(n.parts, s.levels).levels);
    } else {
      PartsRise(nodes, n, |n.parts|, i, m, s.levels);
    }
  }

  lemma GuardRises(nodes: seq<Node>, n: Node, m: Levels, before: Levels)
    requires Sound(nodes, before) && n in nodes && Rises(m, before) && !GuardDone(n, m)
    ensures SomeRises(NodeArcs(n.parts), m, GuardMove(n, before).levels)
  {
    hide Sound, AllValid, Guarded, Exhausted, Climbed, Climbers, BlamedAt, RisesOn, SomeRises, NodeArcs, WellFormed,
      All, Coherent, InRange, Advanced, StructureDone;
    var arcs, s := NodeArcs(n.parts), GuardMove(n, before);
    SoundParts(nodes, before);
    ArcsInAll(nodes, n);
    GuardAdvances(nodes, n, before);
    RoseOrSame(arcs, m, before);
    if !SomeRises(arcs, m, before) {
      Unmoved(n, m, before);
      ClimbAdvances(nodes, arcs, before);
      CellRises(nodes, arcs, before, s);
    }
    SomeRisesMore(arcs, m, before, s.levels);
  }

  /** Every dirty node whose guard fails on valid parts when the guard pass starts has an arc higher when it ends. */
  lemma {:induction false} GuardsRise(nodes: seq<Node>, k: nat, j: nat, dirty: set<Key>, m: Levels, before: Levels)
    requires Sound(nodes, before) && j < k <= |nodes| && nodes[j].key in dirty && Rises(m, before)
    requires !GuardDone(nodes[j], m)
    ensures SomeRises(NodeArcs(nodes[j].parts), m, GuardsMove(nodes[..k], dirty, before).levels)
  {
    hide Sound, Advanced, GuardMove, GuardDone, BlamedAt, SomeRises;
    assert nodes[..k][..k - 1] == nodes[..k - 1];
    var n, s := nodes[k - 1], GuardsMove(nodes[..k - 1], dirty, before);
    GuardsAdvance(nodes, k - 1, dirty, before);
    GuardAdvances(nodes, n, s.levels);
    if j < k - 1 {
      GuardsRise(nodes, k - 1, j, dirty, m, before);
      if n.key in dirty {
        SomeRisesMore(NodeArcs(nodes[j].parts), m, s.levels, GuardMove(n, s.levels).levels);
      }
    } else {
      GuardRises(nodes, n, m, s.levels);
    }
  }

  // ---------------------------------------------------------------- fixpoint

  function Order(nodes: seq<Node>): seq<Arc> {
    if nodes == [] then [] else NodeArcs(nodes[0].parts) + Order(nodes[1..])
  }

  lemma {:induction false} OrderIsAll(nodes: seq<Node>)
    ensures forall a :: a in Order(nodes) ==> a in All(nodes)
    ensures forall a :: a in All(nodes) ==> a in Order(nodes)
  {
    if nodes != [] {
      OrderIsAll(nodes[1..]);
      assert nodes == [nodes[0]] + nodes[1..];
    }
  }

  /** The levels still to climb, over all arcs. */
  ghost function RoomOf(nodes: seq<Node>, m: Levels): int
    requires m.Keys == All(nodes)
  {
    OrderIsAll(nodes);
    Room(Order(nodes), m)
  }

  lemma RoomOfShrinks(nodes: seq<Node>, m: Levels, o: Levels, touched: set<Key>)
    requires m.Keys == All(nodes) && Advanced(m, o, touched)
    ensures RoomOf(nodes, o) <= RoomOf(nodes, m)
    ensures touched != {} ==> RoomOf(nodes, o) < RoomOf(nodes, m)
  {
    OrderIsAll(nodes);
    RoomShrinks(Order(nodes), m, o);
  }

  lemma RoomOfNonNegative(nodes: seq<Node>, m: Levels)
    requires m.Keys == All(nodes) && InRange(m)
    ensures RoomOf(nodes, m) >= 0
  {
    OrderIsAll(nodes);
    RoomNonNegative(Order(nodes), m);
  }

  ghost predicate AllSettled(nodes: seq<Node>, m: Levels) {
    forall n :: n in nodes ==> Settled(n, m)
  }

  ghost predicate SettledOutside(nodes: seq<Node>, dirty: set<Key>, m: Levels) {
    forall n :: n in nodes && n.key !in dirty ==> Settled(n, m)
  }

  /** Nothing for a round to do: every part is valid or stuck, and every dirty node passes its guard or cannot step. */
  ghost predicate Resting(nodes: seq<Node>, dirty: set<Key>, m: Levels) {
    forall n :: n in nodes ==> StructureDone(n, m) && (n.key in dirty ==> GuardDone(n, m))
  }

  /** What a round leaves: the levels, the nodes to guard next, and the nodes it touched. */
  datatype Pass = Pass(levels: Levels, dirty: set<Key>, touched: set<Key>)

  ghost function RoundPass(nodes: seq<Node>, dirty: set<Key>, m: Levels): Pass {
    var s := StructureMove(nodes, m);
    var suspects := dirty + s.touched;
    var g := GuardsMove(nodes, suspects, s.levels);
    var touched := s.touched + g.touched;
    Pass(g.levels, (suspects - Passed(nodes, suspects, s.levels)) + touched, touched)
  }

  datatype Fixed = Fixed(levels: Levels, settled: bool)

  /** Rounds until one touches nothing, or the cap. */
  ghost function Fix(nodes: seq<Node>, rounds: nat, dirty: set<Key>, m: Levels): Fixed {
    if rounds == 0 then Fixed(m, false)
    else
      var r := RoundPass(nodes, dirty, m);
      if r.touched == {} then Fixed(r.levels, true) else Fix(nodes, rounds - 1, r.dirty, r.levels)
  }

  /** A round touches nothing exactly when there is nothing to do. A level that rises in it is on a cell of a part that
      was not valid in it, or of a node whose parts were valid and whose guard failed in it. */
  lemma RoundAdvances(nodes: seq<Node>, dirty: set<Key>, m: Levels)
    requires Sound(nodes, m)
    ensures var r := RoundPass(nodes, dirty, m);
      Sound(nodes, r.levels) && Advanced(m, r.levels, r.touched) && (r.touched == {} <==> Resting(nodes, dirty, m)) &&
      Rises(m, r.levels) && forall a :: a in m && m[a] < r.levels[a] ==> exists w :: BlamedAt(nodes, m, w, r.levels, a)
  {
    hide Sound, Advanced, StructureMove, GuardsMove, Passed, BlamedAt, StructureDone, GuardDone;
    var s := StructureMove(nodes, m);
    var g := GuardsMove(nodes, dirty + s.touched, s.levels);
    assert nodes[..|nodes|] == nodes;
    StructureAdvances(nodes, |nodes|, m);
    GuardsAdvance(nodes, |nodes|, dirty + s.touched, s.levels);
    ThenAdvances(nodes, m, s, g);
    BlameTrans(nodes, m, s.levels, g.levels);
  }

  /** Whatever is not done when a round starts has an arc higher when it ends. */
  lemma RoundRises(nodes: seq<Node>, dirty: set<Key>, m: Levels)
    requires Sound(nodes, m)
    ensures var o := RoundPass(nodes, dirty, m).levels;
      (forall j, i :: 0 <= j < |nodes| && 0 <= i < |nodes[j].parts| && !PartDone(nodes[j].parts[i], m) ==>
          SomeRises(RingArcs(nodes[j].parts[i].rings), m, o)) &&
      forall j :: 0 <= j < |nodes| && nodes[j].key in dirty && !GuardDone(nodes[j], m) ==>
                  SomeRises(NodeArcs(nodes[j].parts), m, o)
  {
    hide Sound, Advanced, StructureMove, GuardsMove, Passed, BlamedAt, StructureDone, GuardDone, PartDone, SomeRises;
    var s := StructureMove(nodes, m);
    var g := GuardsMove(nodes, dirty + s.touched, s.levels);
    assert nodes[..|nodes|] == nodes;
    StructureAdvances(nodes, |nodes|, m);
    GuardsAdvance(nodes, |nodes|, dirty + s.touched, s.levels);
    forall j, i | 0 <= j < |nodes| && 0 <= i < |nodes[j].parts| && !PartDone(nodes[j].parts[i], m)
      ensures SomeRises(RingArcs(nodes[j].parts[i].rings), m, g.levels)
    {
      StructureRises(nodes, |nodes|, j, i, m);
      SomeRisesMore(RingArcs(nodes[j].parts[i].rings), m, s.levels, g.levels);
    }
    forall j | 0 <= j < |nodes| && nodes[j].key in dirty && !GuardDone(nodes[j], m)
      ensures SomeRises(NodeArcs(nodes[j].parts), m, g.levels)
    {
      GuardsRise(nodes, |nodes|, j, dirty + s.touched, m, s.levels);
    }
  }

  /** A clean node passed earlier and none of its arcs moved since: a round keeps that so. */
  lemma RoundKeeps(nodes: seq<Node>, dirty: set<Key>, m: Levels)
    requires Sound(nodes, m) && SettledOutside(nodes, dirty, m)
    ensures SettledOutside(nodes, RoundPass(nodes, dirty, m).dirty, RoundPass(nodes, dirty, m).levels)
  {
    hide Sound, Advanced, StructureMove, GuardsMove, Passed, BlamedAt, StructureDone, GuardDone, Settled, Accepted;
    var r, s := RoundPass(nodes, dirty, m), StructureMove(nodes, m);
    var suspects := dirty + s.touched;
    assert nodes[..|nodes|] == nodes;
    StructureAdvances(nodes, |nodes|, m);
    RoundAdvances(nodes, dirty, m);
    forall n | n in nodes && n.key !in r.dirty
      ensures Settled(n, r.levels)
    {
      if n.key in suspects {
        var i :| 0 <= i < |nodes| && nodes[i] == n;
        PassedAccepted(nodes, |nodes|, suspects, s.levels, i);
        AcceptedIsSettled(n, r.levels);
      } else {
        Untouched(nodes, n, m, r.levels, r.touched);
      }
    }
  }

  /** With the other nodes settled, nothing to do means that all are. */
  lemma QuietRoundSettles(nodes: seq<Node>, dirty: set<Key>, m: Levels)
    requires SettledOutside(nodes, dirty, m)
    ensures Resting(nodes, dirty, m) <==> AllSettled(nodes, m)
  {
    hide StructureDone, GuardDone;
    forall n | n in nodes && Resting(nodes, dirty, m) ensures Settled(n, m) {
    }
  }

  /** The fixpoint as a whole: levels only rise, each for a fault met on the way; nothing moves exactly when there was
      nothing to do. Stopping because nothing was touched means all nodes are settled if those not listed as dirty were;
      stopping at the cap means every round used up a level. */
  lemma {:induction false} FixAdvances(nodes: seq<Node>, rounds: nat, dirty: set<Key>, m: Levels)
    requires Sound(nodes, m)
    ensures var f := Fix(nodes, rounds, dirty, m);
      Sound(nodes, f.levels) && Rises(m, f.levels) &&
      (forall a :: a in m && m[a] < f.levels[a] ==> exists w :: BlamedAt(nodes, m, w, f.levels, a)) &&
      (f.levels == m <==> rounds == 0 || Resting(nodes, dirty, m)) &&
      (f.settled && SettledOutside(nodes, dirty, m) ==> AllSettled(nodes, f.levels)) &&
      (!f.settled ==> RoomOf(nodes, f.levels) + rounds <= RoomOf(nodes, m))
  {
    hide Sound, Advanced, RoundPass, BlamedAt, SettledOutside, AllSettled, Resting, RoomOf, WellFormed, All, Coherent,
      InRange, Rises;
    SoundParts(nodes, m);
    RisesStill(m);
    if rounds > 0 {
      var r := RoundPass(nodes, dirty, m);
      RoundAdvances(nodes, dirty, m);
      SoundParts(nodes, r.levels);
      IdleIsIdle(m, r.levels, r.touched);
      if r.touched == {} {
        if SettledOutside(nodes, dirty, m) {
          QuietRoundSettles(nodes, dirty, m);
        }
      } else {
        if SettledOutside(nodes, dirty, m) {
          RoundKeeps(nodes, dirty, m);
        }
        FixAdvances(nodes, rounds - 1, r.dirty, r.levels);
        var f := Fix(nodes, rounds - 1, r.dirty, r.levels);
        BlameTrans(nodes, m, r.levels, f.levels);
        RoomOfShrinks(nodes, m, r.levels, r.touched);
        StaysRisen(m, r.levels, f.levels);
      }
    }
  }

  lemma RisesStill(m: Levels)
    ensures Rises(m, m)
  {
  }

  lemma StaysRisen(m: Levels, mid: Levels, o: Levels)
    requires Rises(m, mid) && Rises(mid, o) && m != mid
    ensures Rises(m, o) && m != o
  {
    assert exists a :: a in m && m[a] != mid[a];
  }

  const MAX_ROUNDS: nat := 16

  /** What is not done on entry and gets at least one round has an arc higher in the end. */
  lemma FixRises(nodes: seq<Node>, rounds: nat, dirty: set<Key>, m: Levels)
    requires Sound(nodes, m) && rounds > 0
    ensures var o := Fix(nodes, rounds, dirty, m).levels;
      (forall j, i :: 0 <= j < |nodes| && 0 <= i < |nodes[j].parts| && !PartDone(nodes[j].parts[i], m) ==>
          SomeRises(RingArcs(nodes[j].parts[i].rings), m, o)) &&
      forall j :: 0 <= j < |nodes| && nodes[j].key in dirty && !GuardDone(nodes[j], m) ==>
                  SomeRises(NodeArcs(nodes[j].parts), m, o)
  {
    hide Sound, Advanced, RoundPass, BlamedAt, GuardDone, PartDone, SomeRises, Resting;
    var r, o := RoundPass(nodes, dirty, m), Fix(nodes, rounds, dirty, m).levels;
    RoundAdvances(nodes, dirty, m);
    RoundRises(nodes, dirty, m);
    if r.touched != {} {
      FixAdvances(nodes, rounds - 1, r.dirty, r.levels);
    }
    forall arcs: seq<Arc> | SomeRises(arcs, m, r.levels) ensures SomeRises(arcs, m, o) {
      SomeRisesMore(arcs, m, r.levels, o);
    }
  }

  method ValidateRounds(nodes: seq<Node>, rounds: nat, seedDirty: set<Key>) returns (settled: bool)
    requires WellFormed(nodes) && InRange(State(All(nodes)))
    modifies Cells(All(nodes))
    ensures Sound(nodes, State(All(nodes)))
    ensures Fixed(State(All(nodes)), settled) == Fix(nodes, rounds, seedDirty, old(State(All(nodes))))
  {
    hide Cells, All, State, WellFormed, StructureMove, GuardsMove, Passed, Advanced, BlamedAt, Resting, InRange;
    ghost var all := All(nodes);
    ghost var m := State(all);
    SoundState(nodes);
    var dirty := seedDirty;
    for round := 0 to rounds
      invariant Sound(nodes, State(all))
      invariant Fix(nodes, rounds - round, dirty, State(all)) == Fix(nodes, rounds, seedDirty, m)
    {
      ghost var before, was := State(all), dirty;
      RoundAdvances(nodes, was, before);
      StructureSound(nodes, before);
      var touched := StructuralPass(nodes);
      dirty := dirty + touched;
      var passed, stepped := GuardPass(nodes, dirty);
      touched := touched + stepped;
      dirty := (dirty - passed) + touched;
      assert RoundPass(nodes, was, before) == Pass(State(all), dirty, touched);
      if touched == {} {
        return true;
      }
    }
    settled := false;
  }

  lemma StructureSound(nodes: seq<Node>, m: Levels)
    requires Sound(nodes, m)
    ensures Sound(nodes, StructureMove(nodes, m).levels) && InRange(StructureMove(nodes, m).levels)
  {
    hide Advanced, BlamedAt;
    assert nodes[..|nodes|] == nodes;
    StructureAdvances(nodes, |nodes|, m);
  }

  /** Fixpoint escalation, whatever the geometry. Levels only rise, within their ladders, and only on cells of a part
      that was not valid, or of a node with valid parts that failed its guard, at levels passed on the way. No level
      moves exactly when there was nothing to do, and whatever was to be done has an arc higher in the end. When the
      loop stops because a round touched nothing, and every node outside the initial dirty set was settled, every node
      is settled. When it stops at the cap instead, every round climbed: with a cap above the room there is always a
      quiet round. */
  method Validate(nodes: seq<Node>, rounds: nat, seedDirty: set<Key>) returns (settled: bool)
    requires WellFormed(nodes) && InRange(State(All(nodes)))
    modifies Cells(All(nodes))
    ensures Fixed(State(All(nodes)), settled) == Fix(nodes, rounds, seedDirty, old(State(All(nodes))))
    ensures InRange(State(All(nodes)))
    ensures forall a :: a in All(nodes) ==> old(a.At()) <= a.At()
    ensures State(All(nodes)) == old(State(All(nodes))) <==>
              rounds == 0 || old(Resting(nodes, seedDirty, State(All(nodes))))
    ensures forall a :: a in All(nodes) && old(a.At()) < a.At() ==>
              exists w :: BlamedAt(nodes, old(State(All(nodes))), w, State(All(nodes)), a)
    ensures rounds > 0 ==> forall j, i ::
              0 <= j < |nodes| && 0 <= i < |nodes[j].parts| && !PartDone(nodes[j].parts[i], old(State(All(nodes)))) ==>
                SomeRises(RingArcs(nodes[j].parts[i].rings), old(State(All(nodes))), State(All(nodes)))
    ensures rounds > 0 ==> forall j ::
              0 <= j < |nodes| && nodes[j].key in seedDirty && !GuardDone(nodes[j], old(State(All(nodes)))) ==>
                SomeRises(NodeArcs(nodes[j].parts), old(State(All(nodes))), State(All(nodes)))
    ensures settled && old(SettledOutside(nodes, seedDirty, State(All(nodes)))) ==> AllSettled(nodes, State(All(nodes)))
    ensures !settled ==> RoomOf(nodes, State(All(nodes))) + rounds <= old(RoomOf(nodes, State(All(nodes))))
    ensures rounds > old(RoomOf(nodes, State(All(nodes)))) ==> settled
  {
    hide WellFormed, All, Cells, SomeRises, BlamedAt, PartDone, GuardDone, Resting, SettledOutside, AllSettled, RoomOf;
    ghost var m := State(All(nodes));
    SoundState(nodes);
    FixAdvances(nodes, rounds, seedDirty, m);
    if rounds > 0 {
      FixRises(nodes, rounds, seedDirty, m);
    }
    settled := ValidateRounds(nodes, rounds, seedDirty);
    RoomOfNonNegative(nodes, State(All(nodes)));
    LevelsOf(All(nodes));
  }

  twostate lemma LevelsOf(all: set<Arc>)
    ensures forall a :: a in all ==> old(State(all))[a] == old(a.At()) && State(all)[a] == a.At()
  {
  }
}
