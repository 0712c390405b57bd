/** The rest of the smoothing stage: giving levels back to fully reverted rings, stepping the pairs that measure badly,
    and the stage as a whole (tools/map_pipeline/smooth.py). */
module Smoothing {
  import opened Ladder

  // ------------------------------------------------------------------ polish

  ghost predicate NodesAccepted(nodes: seq<Node>, keys: set<Key>, m: Levels) {
    forall n :: n in nodes && n.key in keys ==> Accepted(n, m)
  }

  /** Un-stepping the arc leaves every node it affects accepted. */
  ghost predicate Gives(nodes: seq<Node>, a: Arc, m: Levels) {
    CanUnstep(m, a) && NodesAccepted(nodes, a.Affected(), Unstepped(m, a))
  }

  /** The first of the arcs from i on that can be given back; their number when there is none. */
  ghost function FirstGiven(nodes: seq<Node>, arcs: seq<Arc>, m: Levels, i: nat): (k: nat)
    requires i <= |arcs|
    ensures i <= k <= |arcs| && forall j :: i <= j < k ==> !Gives(nodes, arcs[j], m)
    ensures k < |arcs| ==> Gives(nodes, arcs[k], m)
    decreases |arcs| - i
  {
    if i == |arcs| || Gives(nodes, arcs[i], m) then i else FirstGiven(nodes, arcs, m, i + 1)
  }

  /** A fully reverted ring gives back the first of its arcs that can be given back; anything else rests. */
  ghost function RingPolished(nodes: seq<Node>, arcs: seq<Arc>, m: Levels): Levels {
    var k := FirstGiven(nodes, arcs, m, 0);
    if Exhausted(arcs, m) && k < |arcs| then Unstepped(m, arcs[k]) else m
  }

  ghost function Swept(nodes: seq<Node>, rings: seq<Ring>, m: Levels): Levels {
    if rings == [] then m
    else RingPolished(nodes, rings[|rings| - 1].arcs, Swept(nodes, rings[..|rings| - 1], m))
  }

  /** Sweeps until one frees nothing, or none is left. */
  ghost function Polished(nodes: seq<Node>, rings: seq<Ring>, sweeps: nat, m: Levels): Levels {
    if sweeps == 0 then m
    else
      var o := Swept(nodes, rings, m);
      if o == m then m else Polished(nodes, rings, sweeps - 1, o)
  }

  /** What polishing may do: levels only sink, an accepted node stays accepted, and a node any of whose arcs moved
      is accepted. */
  ghost predicate Relaxed(nodes: seq<Node>, m: Levels, o: Levels) {
    Rises(o, m) &&
    (forall n :: n in nodes && Accepted(n, m) ==> Accepted(n, o)) &&
    (forall n, a :: n in nodes && a in NodeArcs(n.parts) && a in m && o[a] != m[a] ==> Accepted(n, o))
  }

  lemma RelaxedTrans(nodes: seq<Node>, m: Levels, o: Levels, q: Levels)
    requires Relaxed(nodes, m, o) && Relaxed(nodes, o, q)
    ensures Relaxed(nodes, m, q)
  {
  }

  lemma RelaxedStill(nodes: seq<Node>, m: Levels)
    ensures Relaxed(nodes, m, m)
  {
  }

  lemma RelaxedSettled(nodes: seq<Node>, m: Levels, o: Levels)
    requires Relaxed(nodes, m, o) && AllSettled(nodes, m)
    ensures AllSettled(nodes, o)
  {
    hide Accepted, Settled;
    forall n | n in nodes
      ensures Settled(n, o)
    {
      if a :| a in NodeArcs(n.parts) && a in m && o[a] != m[a] {
        AcceptedIsSettled(n, o);
      } else {
        Unmoved(n, m, o);
      }
    }
  }

  /** Every arc is where it was, or one below the top it stood at. */
  ghost predicate Dropped(m: Levels, o: Levels) {
    m.Keys == o.Keys && forall a :: a in m ==> o[a] == m[a] || o[a] + 1 == m[a] == a.Top()
  }

  /** Levels sank only on cells of rings that were fully reverted. */
  ghost predicate FromReverted(rings: seq<Ring>, m: Levels, o: Levels) {
    forall a :: a in m && a in o && o[a] != m[a] ==>
      exists k, b :: 0 <= k < |rings| && b in rings[k].arcs && SameCell(b, a) && Exhausted(rings[k].arcs, m)
  }

  lemma OtherCells(nodes: seq<Node>, a: Arc, n: Node)
    requires WellFormed(nodes) && a in All(nodes) && n in nodes && n.key !in a.Affected()
    ensures forall b :: b in NodeArcs(n.parts) && b in All(nodes) ==> !SameCell(a, b)
  {
  }

  /** A node the arc does not affect is left as it was. */
  lemma UnstepUnseen(nodes: seq<Node>, m: Levels, a: Arc, n: Node)
    requires WellFormed(nodes) && m.Keys == All(nodes) && a in m && CanUnstep(m, a)
    requires n in nodes && n.key !in a.Affected()
    ensures Accepted(n, m) ==> Accepted(n, Unstepped(m, a))
    ensures forall b :: b in NodeArcs(n.parts) && b in m ==> Unstepped(m, a)[b] == m[b]
  {
    hide Accepted, Settled, WellFormed, All, NodeArcs;
    OtherCells(nodes, a, n);
    Unmoved(n, m, Unstepped(m, a));
  }

  lemma UnstepKeeps(nodes: seq<Node>, m: Levels, a: Arc)
    requires WellFormed(nodes) && m.Keys == All(nodes) && a in m && CanUnstep(m, a)
    requires NodesAccepted(nodes, a.Affected(), Unstepped(m, a))
    ensures Relaxed(nodes, m, Unstepped(m, a))
  {
    hide Accepted, WellFormed;
    forall n | n in nodes && n.key !in a.Affected()
      ensures Accepted(n, m) ==> Accepted(n, Unstepped(m, a))
      ensures forall b :: b in NodeArcs(n.parts) && b in m ==> Unstepped(m, a)[b] == m[b]
    {
      UnstepUnseen(nodes, m, a, n);
    }
  }

  lemma UnstepSinks(nodes: seq<Node>, m: Levels, a: Arc)
    requires Sound(nodes, m) && a in m && !Steppable(a, m) && CanUnstep(m, a)
    ensures Unstepped(m, a) != m && Sound(nodes, Unstepped(m, a)) && Dropped(m, Unstepped(m, a))
    ensures forall b :: b in m && Unstepped(m, a)[b] != m[b] ==> SameCell(a, b)
  {
    hide WellFormed, All;
    assert Unstepped(m, a)[a] < m[a];
  }

  lemma RevertedCanUnstep(nodes: seq<Node>, m: Levels, a: Arc)
    requires Sound(nodes, m) && a in m && !Steppable(a, m)
    ensures CanUnstep(m, a)
  {
  }

  /** One ring: a fully reverted one moves exactly when one of its arcs can be given back, and then gives back one level
      of one arc; no node is lost. */
  lemma RingRelaxes(nodes: seq<Node>, arcs: seq<Arc>, m: Levels)
    requires Sound(nodes, m) && forall a :: a in arcs ==> a in m
    ensures var o := RingPolished(nodes, arcs, m);
      Sound(nodes, o) && Relaxed(nodes, m, o) && Dropped(m, o) &&
      (o != m <==> Exhausted(arcs, m) && exists a :: a in arcs && Gives(nodes, a, m)) &&
      (o != m ==> exists a :: a in arcs && Gives(nodes, a, m) && o == Unstepped(m, a)) &&
      forall a :: a in m && o[a] != m[a] ==> exists b :: b in arcs && SameCell(b, a)
  {
    hide Sound, Relaxed, Dropped, NodesAccepted, Stepped, CanUnstep;
    RelaxedStill(nodes, m);
    DroppedStill(m);
    var k := FirstGiven(nodes, arcs, m, 0);
    if Exhausted(arcs, m) && k < |arcs| {
      assert arcs[k] in arcs;
      SoundParts(nodes, m);
      UnstepKeeps(nodes, m, arcs[k]);
      UnstepSinks(nodes, m, arcs[k]);
    }
  }

  lemma DroppedStill(m: Levels)
    ensures Dropped(m, m)
  {
  }

  lemma DroppedTrans(m: Levels, o: Levels, q: Levels)
    requires Dropped(m, o) && Dropped(o, q)
    ensures Dropped(m, q)
  {
  }

  /** What a ring gives back late it could have only if it was reverted all along. */
  lemma ExhaustedBefore(arcs: seq<Arc>, m: Levels, o: Levels)
    requires Rises(o, m) && Exhausted(arcs, o)
    ensures Exhausted(arcs, m)
  {
  }

  ghost predicate RingsIn(nodes: seq<Node>, rings: seq<Ring>) {
    forall k, a :: 0 <= k < |rings| && a in rings[k].arcs ==> a in All(nodes)
  }

  /** No reverted ring has an arc that could be given back. */
  ghost predicate NothingToGive(nodes: seq<Node>, rings: seq<Ring>, m: Levels) {
    forall k, a :: 0 <= k < |rings| && Exhausted(rings[k].arcs, m) && a in rings[k].arcs ==> !Gives(nodes, a, m)
  }

  /** What polishing does to the levels, whatever the geometry. */
  ghost predicate Polishes(nodes: seq<Node>, rings: seq<Ring>, m: Levels, o: Levels) {
    Sound(nodes, o) && Relaxed(nodes, m, o) && Dropped(m, o) && FromReverted(rings, m, o)
  }

  /** One sweep frees nothing exactly when there is nothing to give. */
  lemma {:induction false} SweepRelaxes(nodes: seq<Node>, rings: seq<Ring>, k: nat, m: Levels)
    requires Sound(nodes, m) && k <= |rings| && RingsIn(nodes, rings)
    ensures var o := Swept(nodes, rings[..k], m);
      Polishes(nodes, rings, m, o) && (o == m <==> NothingToGive(nodes, rings[..k], m))
  {
    hide Sound, Relaxed, Dropped, RingPolished, FromReverted, Gives, Exhausted, NothingToGive, Rises, WellFormed, All,
      InRange, Coherent;
    RelaxedStill(nodes, m);
    DroppedStill(m);
    FromStill(rings, m);
    if k == 0 {
      NoRingGives(nodes, m);
    } else {
      assert rings[..k][..k - 1] == rings[..k - 1];
      var mid, arcs := Swept(nodes, rings[..k - 1], m), rings[k - 1].arcs;
      SweepRelaxes(nodes, rings, k - 1, m);
      SoundParts(nodes, m);
      SoundParts(nodes, mid);
      RingIn(nodes, rings, k - 1);
      RingRelaxes(nodes, arcs, mid);
      var o := RingPolished(nodes, arcs, mid);
      PolishesTrans(nodes, rings, k - 1, m, mid, o);
      SankStays(nodes, m, mid, o);
      RingGives(nodes, rings, k, m);
    }
  }

  lemma NoRingGives(nodes: seq<Node>, m: Levels)
    ensures NothingToGive(nodes, [], m)
  {
  }

  lemma RingIn(nodes: seq<Node>, rings: seq<Ring>, k: nat)
    requires RingsIn(nodes, rings) && k < |rings|
    ensures forall a :: a in rings[k].arcs ==> a in All(nodes)
  {
  }

  lemma RingGives(nodes: seq<Node>, rings: seq<Ring>, k: nat, m: Levels)
    requires 0 < k <= |rings|
    ensures NothingToGive(nodes, rings[..k], m) <==>
              NothingToGive(nodes, rings[..k - 1], m) &&
              !(Exhausted(rings[k - 1].arcs, m) && exists a :: a in rings[k - 1].arcs && Gives(nodes, a, m))
  {
    hide Gives, Exhausted;
    var front := rings[..k - 1];
    assert rings[..k] == front + [rings[k - 1]];
    if NothingToGive(nodes, rings[..k], m) {
      forall i, a | 0 <= i < |front| && Exhausted(front[i].arcs, m) && a in front[i].arcs ensures !Gives(nodes, a, m) {
        assert rings[..k][i] == front[i];
      }
      assert rings[..k][k - 1] == rings[k - 1];
    }
  }

  lemma FromStill(rings: seq<Ring>, m: Levels)
    ensures FromReverted(rings, m, m)
  {
  }

  lemma SankStays(nodes: seq<Node>, m: Levels, mid: Levels, o: Levels)
    requires Relaxed(nodes, m, mid) && Relaxed(nodes, mid, o)
    ensures o == m ==> mid == m
  {
    hide Accepted;
    if o == m {
      forall a | a in m ensures mid[a] == m[a] {
      }
    }
  }

  lemma PolishesTrans(nodes: seq<Node>, rings: seq<Ring>, k: nat, m: Levels, mid: Levels, o: Levels)
    requires k < |rings| && Polishes(nodes, rings, m, mid) && Sound(nodes, o) && Relaxed(nodes, mid, o) &&
               Dropped(mid, o)
    requires o != mid ==> Exhausted(rings[k].arcs, mid)
    requires forall a :: a in mid && o[a] != mid[a] ==> exists b :: b in rings[k].arcs && SameCell(b, a)
    ensures Polishes(nodes, rings, m, o)
  {
    hide Sound, Dropped, Exhausted, Accepted;
    RelaxedTrans(nodes, m, mid, o);
    DroppedTrans(m, mid, o);
    forall a | a in m && o[a] != m[a]
      ensures exists i, b :: 0 <= i < |rings| && b in rings[i].arcs && SameCell(b, a) && Exhausted(rings[i].arcs, m)
    {
      if mid[a] == m[a] {
        var b :| b in rings[k].arcs && SameCell(b, a);
        ExhaustedBefore(rings[k].arcs, m, mid);
      }
    }
  }

  lemma RoomOfGrows(nodes: seq<Node>, m: Levels, o: Levels)
    requires m.Keys == All(nodes) && Rises(o, m)
    ensures RoomOf(nodes, m) <= RoomOf(nodes, o)
    ensures o != m ==> RoomOf(nodes, m) < RoomOf(nodes, o)
  {
    OrderIsAll(nodes);
    RoomShrinks(Order(nodes), o, m);
    if o != m {
      var a :| a in m && o[a] != m[a];
      assert a in Order(nodes) && o[a] < m[a];
    }
  }

  /** Polishing as a whole: arcs end where they were or one below the top they stood at, and only on cells of rings
      that were fully reverted; no accepted node is lost. It moves nothing exactly when there is nothing to give, and
      ends with nothing to give unless every sweep allowed gave a level back. */
  lemma {:induction false} PolishedRelaxes(nodes: seq<Node>, rings: seq<Ring>, sweeps: nat, m: Levels)
    requires Sound(nodes, m) && RingsIn(nodes, rings)
    ensures var o := Polished(nodes, rings, sweeps, m);
      Polishes(nodes, rings, m, o) && o.Keys == All(nodes) == m.Keys &&
      (o == m <==> sweeps == 0 || NothingToGive(nodes, rings, m)) &&
      (NothingToGive(nodes, rings, o) || RoomOf(nodes, m) + sweeps <= RoomOf(nodes, o))
  {
    hide Sound, Relaxed, Dropped, Swept, FromReverted, NothingToGive, WellFormed, All, InRange, Coherent, RoomOf;
    SoundParts(nodes, m);
    RelaxedStill(nodes, m);
    DroppedStill(m);
    FromStill(rings, m);
    if sweeps > 0 {
      var o := Swept(nodes, rings, m);
      assert rings[..|rings|] == rings;
      SweepRelaxes(nodes, rings, |rings|, m);
      if o != m {
        SoundParts(nodes, o);
        PolishedRelaxes(nodes, rings, sweeps - 1, o);
        var q := Polished(nodes, rings, sweeps - 1, o);
        RelaxedRises(nodes, m, o);
        RelaxedRises(nodes, o, q);
        RoomOfGrows(nodes, m, o);
        SankStays(nodes, m, o, q);
        RelaxedTrans(nodes, m, o, q);
        DroppedTrans(m, o, q);
        FromTrans(rings, m, o, q);
      }
    }
  }

  lemma RelaxedRises(nodes: seq<Node>, m: Levels, o: Levels)
    requires Relaxed(nodes, m, o)
    ensures Rises(o, m)
  {
  }

  lemma FromTrans(rings: seq<Ring>, m: Levels, mid: Levels, o: Levels)
    requires Rises(mid, m) && Rises(o, mid) && FromReverted(rings, m, mid) && FromReverted(rings, mid, o)
    ensures FromReverted(rings, m, o)
  {
    hide Exhausted;
    forall a | a in m && o[a] != m[a]
      ensures exists k, b :: 0 <= k < |rings| && b in rings[k].arcs && SameCell(b, a) && Exhausted(rings[k].arcs, m)
    {
      if mid[a] == m[a] {
        var k, b :| 0 <= k < |rings| && b in rings[k].arcs && SameCell(b, a) && Exhausted(rings[k].arcs, mid);
        ExhaustedBefore(rings[k].arcs, m, mid);
      }
    }
  }

  method IsAccepted(n: Node, ghost nodes: seq<Node>) returns (ok: bool)
    requires n in nodes
    ensures ok == Accepted(n, State(All(nodes)))
  {
    ok := PartsValid(n, nodes);
    if ok {
      ArcsInAll(nodes, n);
      ReadIsVector(NodeArcs(n.parts), All(nodes));
      ok := n.ok(Read(NodeArcs(n.parts)));
    }
  }

  /** Whether every affected node has valid parts and passes its guard. */
  method TrialOk(a: Arc, nodes: seq<Node>) returns (ok: bool)
    ensures ok == NodesAccepted(nodes, a.Affected(), State(All(nodes)))
  {
    hide Accepted;
    ghost var m := State(All(nodes));
    for i := 0 to |nodes|
      invariant State(All(nodes)) == m
      invariant forall j :: 0 <= j < i && nodes[j].key in a.Affected() ==> Accepted(nodes[j], m)
    {
      if nodes[i].key in a.Affected() {
        var one := IsAccepted(nodes[i], nodes);
        if !one {
          return false;
        }
      }
    }
    return true;
  }

  /** Un-steps a, and keeps it un-stepped only if every affected node is then accepted. */
  method TryUnstep(a: Arc, nodes: seq<Node>) returns (ok: bool)
    requires a in All(nodes) && State(All(nodes))[a] > 0
    modifies a, a.chain
    ensures old(CanUnstep(State(All(nodes)), a))
    ensures ok == NodesAccepted(nodes, a.Affected(), Unstepped(old(State(All(nodes))), a))
    ensures State(All(nodes)) == if ok then Unstepped(old(State(All(nodes))), a) else old(State(All(nodes)))
  {
    hide Accepted, NodesAccepted;
    ghost var m := State(All(nodes));
    UnstepArc(a, All(nodes));
    ghost var low := State(All(nodes));
    ok := TrialOk(a, nodes);
    assert State(All(nodes)) == low == Unstepped(m, a);
    if !ok {
      RestoreArc(a, All(nodes));
      UnstepStep(m, a);
    }
  }

  /** One ring: when all its arcs are reverted, the first arc whose un-stepping every affected node accepts is
      un-stepped; every other trial is put back exactly. */
  method PolishRing(ring: Ring, nodes: seq<Node>) returns (freed: bool)
    requires WellFormed(nodes) && InRange(State(All(nodes))) && forall a :: a in ring.arcs ==> a in All(nodes)
    modifies Cells(All(nodes))
    ensures State(All(nodes)) == RingPolished(nodes, ring.arcs, old(State(All(nodes))))
    ensures freed == (State(All(nodes)) != old(State(All(nodes))))
    ensures freed <==> old(Exhausted(ring.arcs, State(All(nodes)))) &&
                       exists a :: a in ring.arcs && old(Gives(nodes, a, State(All(nodes))))
  {
    hide NodesAccepted, CanUnstep, WellFormed, InRange, Unstepped, Exhausted, Sound, Gives, Relaxed, Dropped;
    ghost var m := State(All(nodes));
    SoundState(nodes);
    SoundParts(nodes, m);
    RingRelaxes(nodes, ring.arcs, m);
    freed := false;
    var reverted := RingReverted(ring, All(nodes));
    assert State(All(nodes)) == m;
    if reverted {
      freed := GiveBack(ring.arcs, nodes);
    }
  }

  /** Un-steps the first of the arcs that can be given back. */
  method GiveBack(arcs: seq<Arc>, nodes: seq<Node>) returns (freed: bool)
    requires Sound(nodes, State(All(nodes))) && Exhausted(arcs, State(All(nodes)))
    requires forall a :: a in arcs ==> a in All(nodes)
    modifies Cells(All(nodes))
    ensures var k := FirstGiven(nodes, arcs, old(State(All(nodes))), 0);
      freed == (k < |arcs|) &&
      State(All(nodes)) == if k < |arcs| then Unstepped(old(State(All(nodes))), arcs[k]) else old(State(All(nodes)))
  {
    hide NodesAccepted, CanUnstep, Unstepped, Exhausted, Sound;
    ghost var all := All(nodes);
    ghost var m := State(all);
    for i := 0 to |arcs|
      invariant State(all) == m
      invariant FirstGiven(nodes, arcs, m, 0) == FirstGiven(nodes, arcs, m, i)
    {
      assert arcs[i] in arcs;
      ExhaustedArc(nodes, arcs, m, arcs[i]);
      InCells(arcs[i], all);
      var ok := TryUnstep(arcs[i], nodes);
      if ok {
        return true;
      }
    }
    freed := false;
  }

  lemma ExhaustedArc(nodes: seq<Node>, arcs: seq<Arc>, m: Levels, a: Arc)
    requires Sound(nodes, m) && Exhausted(arcs, m) && a in arcs && a in m
    ensures !Steppable(a, m) && m[a] > 0 && CanUnstep(m, a)
  {
    RevertedCanUnstep(nodes, m, a);
  }

  method RingReverted(ring: Ring, ghost all: set<Arc>) returns (reverted: bool)
    requires forall a :: a in ring.arcs ==> a in all
    ensures reverted == Exhausted(ring.arcs, State(all))
  {
    for i := 0 to |ring.arcs|
      invariant forall j :: 0 <= j < i ==> !Steppable(ring.arcs[j], State(all))
    {
      if !ring.arcs[i].Reverted() {
        assert ring.arcs[i] in ring.arcs && Steppable(ring.arcs[i], State(all));
        return false;
      }
    }
    return true;
  }

  method Sweep(nodes: seq<Node>, rings: seq<Ring>) returns (freed: bool)
    requires WellFormed(nodes) && InRange(State(All(nodes))) && RingsIn(nodes, rings)
    modifies Cells(All(nodes))
    ensures State(All(nodes)) == Swept(nodes, rings, old(State(All(nodes))))
    ensures freed == (State(All(nodes)) != old(State(All(nodes))))
  {
    hide All, Cells, WellFormed, Relaxed, Dropped, RingPolished, FromReverted, NothingToGive, InRange, Sound, Coherent;
    ghost var all := All(nodes);
    ghost var m := State(all);
    SoundState(nodes);
    freed := false;
    for i := 0 to |rings|
      invariant State(all) == Swept(nodes, rings[..i], m) && Sound(nodes, State(all))
      invariant freed == (State(all) != m)
    {
      assert rings[..i + 1][..i] == rings[..i];
      SoundParts(nodes, State(all));
      SweepRelaxes(nodes, rings, i, m);
      SweepRelaxes(nodes, rings, i + 1, m);
      RingIn(nodes, rings, i);
      RingRelaxes(nodes, rings[i].arcs, State(all));
      SankStays(nodes, m, State(all), RingPolished(nodes, rings[i].arcs, State(all)));
      var one := PolishRing(rings[i], nodes);
      freed := freed || one;
    }
    assert rings[..|rings|] == rings;
  }

  /** Second chance for fully reverted rings, in at most three sweeps. Levels sink by at most one, from the top, on
      cells of rings that were fully reverted; no accepted node is lost and a settled world stays settled. Something
      sinks exactly when a reverted ring had an arc that could be given back; in the end no such ring is left, unless
      each of the three sweeps gave a level back. */
  method Polish(nodes: seq<Node>, rings: seq<Ring>)
    requires WellFormed(nodes) && InRange(State(All(nodes))) && RingsIn(nodes, rings)
    modifies Cells(All(nodes))
    ensures State(All(nodes)) == Polished(nodes, rings, SWEEPS, old(State(All(nodes))))
    ensures Polishes(nodes, rings, old(State(All(nodes))), State(All(nodes)))
    ensures State(All(nodes)) == old(State(All(nodes))) <==> old(NothingToGive(nodes, rings, State(All(nodes))))
    ensures NothingToGive(nodes, rings, State(All(nodes))) ||
            old(RoomOf(nodes, State(All(nodes)))) + SWEEPS <= RoomOf(nodes, State(All(nodes)))
    ensures old(AllSettled(nodes, State(All(nodes)))) ==> AllSettled(nodes, State(All(nodes)))
  {
    hide All, Cells, WellFormed, Swept, NothingToGive, InRange, Sound, RoomOf, Relaxed, Dropped, FromReverted,
      AllSettled,
      Coherent;
    ghost var all := All(nodes);
    ghost var m := State(all);
    SoundState(nodes);
    PolishedRelaxes(nodes, rings, SWEEPS, m);
    for sweep := 0 to SWEEPS
      invariant Sound(nodes, State(all))
      invariant Polished(nodes, rings, SWEEPS - sweep, State(all)) == Polished(nodes, rings, SWEEPS, m)
    {
      SoundParts(nodes, State(all));
      assert rings[..|rings|] == rings;
      SweepRelaxes(nodes, rings, |rings|, State(all));
      var freed := Sweep(nodes, rings);
      if !freed {
        break;
      }
    }
    if AllSettled(nodes, m) {
      RelaxedSettled(nodes, m, State(all));
    }
  }

  const SWEEPS: nat := 3

  // ------------------------------------------------------------- pair guards

  /** The arcs on a chain, or those on their own, that can step, in order. */
  ghost function Rising(arcs: seq<Arc>, paired: bool, m: Levels): seq<Arc> {
    if arcs == [] then []
    else
      var a := arcs[|arcs| - 1];
      Rising(arcs[..|arcs| - 1], paired, m) + if (a.chain != null) == paired && Steppable(a, m) then [a] else []
  }

  lemma {:induction false} RisingMembers(arcs: seq<Arc>, paired: bool, m: Levels)
    ensures forall a :: a in Rising(arcs, paired, m) ==> a in arcs && (a.chain != null) == paired && Steppable(a, m)
    ensures forall a :: a in arcs && (a.chain != null) == paired && Steppable(a, m) ==> a in Rising(arcs, paired, m)
  {
    if arcs != [] {
      var front, last := arcs[..|arcs| - 1], arcs[|arcs| - 1];
      RisingMembers(front, paired, m);
      assert arcs == front + [last];
    }
  }

  ghost predicate SoloSteppable(arcs: seq<Arc>, m: Levels) {
    exists a :: a in arcs && a.chain == null && Steppable(a, m)
  }

  /** The arcs of a failing pair that step: its unmatched arcs while any can, else its shared chains. */
  ghost function TargetsOf(arcs: seq<Arc>, m: Levels): seq<Arc> {
    var solo := Rising(arcs, false, m);
    if solo != [] then solo else Rising(arcs, true, m)
  }

  lemma TargetMembers(arcs: seq<Arc>, m: Levels)
    ensures forall a :: a in TargetsOf(arcs, m) ==>
                          a in arcs && Steppable(a, m) && (a.chain == null <==> SoloSteppable(arcs, m))
    ensures forall a :: a in arcs && Steppable(a, m) && (a.chain == null <==> SoloSteppable(arcs, m)) ==>
                          a in TargetsOf(arcs, m)
  {
    var solo := Rising(arcs, false, m);
    RisingMembers(arcs, false, m);
    RisingMembers(arcs, true, m);
    assert solo != [] ==> solo[0] in solo;
    if SoloSteppable(arcs, m) {
      var a :| a in arcs && a.chain == null && Steppable(a, m);
      assert a in solo;
    }
  }

  method Targets(arcs: seq<Arc>, ghost all: set<Arc>) returns (targets: seq<Arc>)
    requires forall a :: a in arcs ==> a in all
    ensures targets == TargetsOf(arcs, State(all))
    ensures forall a :: a in targets <==>
                          a in arcs && Steppable(a, State(all)) &&
                          (a.chain == null <==> SoloSteppable(arcs, State(all)))
  {
    var solo, paired: seq<Arc> := [], [];
    for i := 0 to |arcs|
      invariant solo == Rising(arcs[..i], false, State(all)) && paired == Rising(arcs[..i], true, State(all))
    {
      var a := arcs[i];
      assert arcs[..i + 1][..i] == arcs[..i];
      if !a.Reverted() {
        if a.chain == null {
          solo := solo + [a];
        } else {
          paired := paired + [a];
        }
      }
    }
    assert arcs[..|arcs|] == arcs;
    targets := if solo != [] then solo else paired;
    TargetMembers(arcs, State(all));
  }

  /** Every target steps once. A chain listed from both of its sides may step twice. */
  ghost function PairMove(arcs: seq<Arc>, m: Levels): Move {
    ClimbMove(TargetsOf(arcs, m), m)
  }

  method StepPair(arcs: seq<Arc>, ghost nodes: seq<Node>) returns (touched: set<Key>)
    requires InRange(State(All(nodes))) && forall a :: a in arcs ==> a in All(nodes)
    modifies Cells(All(nodes))
    ensures Move(State(All(nodes)), touched) == PairMove(arcs, old(State(All(nodes))))
    ensures old(SoloSteppable(arcs, State(All(nodes)))) ==>
              forall a :: a in All(nodes) && a.chain != null ==> State(All(nodes))[a] == old(State(All(nodes)))[a]
  {
    hide All, InRange, Climbed, Climbers;
    ghost var m := State(All(nodes));
    var targets := Targets(arcs, All(nodes));
    assert State(All(nodes)) == m;
    if SoloSteppable(arcs, m) {
      SoloClimb(targets, m);
    }
    touched := StepAll(targets, All(nodes));
  }

  /** Arcs on their own raise no chain. */
  lemma {:induction false} NoHits(arcs: seq<Arc>, b: Arc)
    requires (forall a :: a in arcs ==> a.chain == null) && b.chain != null
    ensures Hits(arcs, b) == 0
  {
    if arcs != [] {
      assert arcs[|arcs| - 1] in arcs;
      NoHits(arcs[..|arcs| - 1], b);
    }
  }

  lemma SoloClimb(arcs: seq<Arc>, m: Levels)
    requires InRange(m) && forall a :: a in arcs ==> a.chain == null
    ensures forall b :: b in m && b.chain != null ==> Climbed(arcs, m)[b] == m[b]
  {
    forall b | b in m && b.chain != null ensures Climbed(arcs, m)[b] == m[b] {
      NoHits(arcs, b);
    }
  }

  function PairAt(pairs: seq<seq<Arc>>, k: nat): seq<Arc> {
    if k < |pairs| then pairs[k] else []
  }

  /** The pairs step in turn. */
  ghost function PairsMove(pairs: seq<seq<Arc>>, bad: seq<nat>, m: Levels): Move {
    if bad == [] then Move(m, {})
    else
      var s := PairsMove(pairs, bad[..|bad| - 1], m);
      Then(s, PairMove(PairAt(pairs, bad[|bad| - 1]), s.levels))
  }

  method StepPairs(pairs: seq<seq<Arc>>, bad: seq<nat>, ghost nodes: seq<Node>) returns (seed: set<Key>)
    requires WellFormed(nodes) && InRange(State(All(nodes))) && PairsIn(nodes, pairs)
    requires forall k :: k in bad ==> k < |pairs|
    modifies Cells(All(nodes))
    ensures Move(State(All(nodes)), seed) == PairsMove(pairs, bad, old(State(All(nodes))))
  {
    hide Cells, All, InRange, WellFormed, Advanced, PairMove, Coherent;
    ghost var m := State(All(nodes));
    SoundState(nodes);
    seed := {};
    for i := 0 to |bad|
      invariant Move(State(All(nodes)), seed) == PairsMove(pairs, bad[..i], m)
      invariant Sound(nodes, State(All(nodes)))
    {
      assert bad[i] in bad && bad[..i + 1][..i] == bad[..i];
      SoundParts(nodes, State(All(nodes)));
      PairAdvances(nodes, PairAt(pairs, bad[i]), State(All(nodes)));
      var more := StepPair(pairs[bad[i]], nodes);
      seed := seed + more;
    }
    assert bad[..|bad|] == bad;
  }

  ghost predicate PairsIn(nodes: seq<Node>, pairs: seq<seq<Arc>>) {
    forall k, a :: 0 <= k < |pairs| && a in pairs[k] ==> a in All(nodes)
  }

  /** A failing pair moves unless none of its arcs can step. */
  lemma PairAdvances(nodes: seq<Node>, arcs: seq<Arc>, m: Levels)
    requires Sound(nodes, m) && forall a :: a in arcs ==> a in All(nodes)
    ensures var s := PairMove(arcs, m);
      IsAdvance(nodes, m, s) && Rises(m, s.levels) && RisesOn(arcs, m, s.levels) &&
      (s.touched == {} <==> Exhausted(arcs, m)) &&
      forall a :: a in TargetsOf(arcs, m) ==> a in m && a in s.levels && m[a] < s.levels[a]
  {
    hide Sound, Climbed, Climbers, RisesOn, WellFormed, All, Coherent, InRange;
    SoundParts(nodes, m);
    var targets := TargetsOf(arcs, m);
    TargetMembers(arcs, m);
    ClimbAdvances(nodes, targets, m);
    ClimbIdle(nodes, targets, m);
    ClimbRaises(targets, m);
    RisesOnMore(targets, arcs, m, Climbed(targets, m));
  }

  /** What could step before and has not risen since is still a target, or higher after. */
  lemma TargetRises(nodes: seq<Node>, arcs: seq<Arc>, m: Levels, before: Levels, a: Arc)
    requires Sound(nodes, before) && Rises(m, before) && (forall b :: b in arcs ==> b in All(nodes))
    requires a in TargetsOf(arcs, m)
    ensures a in m && a in PairMove(arcs, before).levels && m[a] < PairMove(arcs, before).levels[a]
  {
    hide Sound, WellFormed, All, Coherent, InRange, RisesOn, TargetsOf;
    SoundParts(nodes, before);
    PairAdvances(nodes, arcs, before);
    TargetMembers(arcs, m);
    TargetMembers(arcs, before);
    assert forall b :: b in arcs && Steppable(b, before) ==> Steppable(b, m);
  }

  /** Stepping the failing pairs raises every target of every one of them, and touches nothing exactly when no arc of
      theirs can step. */
  lemma {:induction false} PairsAdvance(nodes: seq<Node>, pairs: seq<seq<Arc>>, bad: seq<nat>, m: Levels)
    requires Sound(nodes, m) && PairsIn(nodes, pairs)
    ensures var s := PairsMove(pairs, bad, m);
      IsAdvance(nodes, m, s) && Rises(m, s.levels) &&
      (s.touched == {} <==> forall k :: k in bad ==> Exhausted(PairAt(pairs, k), m)) &&
      (forall a :: a in m && m[a] < s.levels[a] ==> PairListed(pairs, bad, a)) &&
      forall k, a :: k in bad && a in TargetsOf(PairAt(pairs, k), m) ==> a in m && a in s.levels && m[a] < s.levels[a]
  {
    hide Sound, Advanced, WellFormed, All, Coherent, InRange, RisesOn, TargetsOf, PairMove, Exhausted,
      PairListed, PairsIn;
    if bad == [] {
      IdleAdvance(nodes, m);
    } else {
      var front, k := bad[..|bad| - 1], bad[|bad| - 1];
      assert bad == front + [k];
      var s := PairsMove(pairs, front, m);
      PairsAdvance(nodes, pairs, front, m);
      PairIn(nodes, pairs, k);
      PairAdvances(nodes, PairAt(pairs, k), s.levels);
      ThenAdvances(nodes, m, s, PairMove(PairAt(pairs, k), s.levels));
      forall a | a in m && m[a] < PairMove(PairAt(pairs, k), s.levels).levels[a] ensures PairListed(pairs, bad, a) {
        if m[a] < s.levels[a] {
          ListedMore(pairs, front, k, a);
        } else {
          ListedLast(pairs, front, k, s.levels, PairMove(PairAt(pairs, k), s.levels).levels, a);
        }
      }
      forall a | a in TargetsOf(PairAt(pairs, k), m)
        ensures a in m && m[a] < PairMove(PairAt(pairs, k), s.levels).levels[a]
      {
        TargetRises(nodes, PairAt(pairs, k), m, s.levels, a);
      }
    }
  }

  /** An arc on the cell of a is of one of these pairs. */
  ghost predicate PairListed(pairs: seq<seq<Arc>>, bad: seq<nat>, a: Arc) {
    exists k, b :: k in bad && b in PairAt(pairs, k) && SameCell(b, a)
  }

  lemma ListedMore(pairs: seq<seq<Arc>>, bad: seq<nat>, k: nat, a: Arc)
    requires PairListed(pairs, bad, a)
    ensures PairListed(pairs, bad + [k], a)
  {
    var i, b :| i in bad && b in PairAt(pairs, i) && SameCell(b, a);
    assert i in bad + [k];
  }

  lemma ListedLast(pairs: seq<seq<Arc>>, bad: seq<nat>, k: nat, m: Levels, o: Levels, a: Arc)
    requires RisesOn(PairAt(pairs, k), m, o) && a in m && a in o && m[a] < o[a]
    ensures PairListed(pairs, bad + [k], a)
  {
    var b :| b in PairAt(pairs, k) && SameCell(b, a);
    assert k in bad + [k];
  }

  lemma PairIn(nodes: seq<Node>, pairs: seq<seq<Arc>>, k: nat)
    requires PairsIn(nodes, pairs)
    ensures forall a :: a in PairAt(pairs, k) ==> a in All(nodes)
  {
  }

  /** Which pairs measure badly, as a function of all levels. */
  type Measure = seq<nat> -> seq<nat>

  ghost predicate Measures(pairs: seq<seq<Arc>>, offending: Measure) {
    forall s, k :: k in offending(s) ==> k < |pairs|
  }

  ghost function BadPairs(nodes: seq<Node>, offending: Measure, m: Levels): seq<nat> {
    offending(Vector(Order(nodes), m))
  }

  /** Why the pair guards stopped: no pair measured badly, none that did had an arc left to step, or the cap. */
  datatype Verdict = Clear | Stuck | Capped

  /** The levels in the end, why the guards stopped, and whether every fixpoint on the way settled. */
  datatype Handled = Handled(levels: Levels, verdict: Verdict, settled: bool)

  ghost function Handle(nodes: seq<Node>, pairs: seq<seq<Arc>>, offending: Measure, rounds: nat, m: Levels): Handled
  {
    if rounds == 0 then Handled(m, Capped, true)
    else
      var bad := BadPairs(nodes, offending, m);
      if bad == [] then Handled(m, Clear, true)
      else
        var s := PairsMove(pairs, bad, m);
        if s.touched == {} then Handled(s.levels, Stuck, true)
        else
          var f := Fix(nodes, MAX_ROUNDS, s.touched, s.levels);
          var h := Handle(nodes, pairs, offending, rounds - 1, f.levels);
          Handled(h.levels, h.verdict, f.settled && h.settled)
  }

  lemma SeedKeeps(nodes: seq<Node>, m: Levels, o: Levels, seed: set<Key>)
    requires Sound(nodes, m) && AllSettled(nodes, m) && Advanced(m, o, seed)
    ensures SettledOutside(nodes, seed, o)
  {
    forall n | n in nodes && n.key !in seed
      ensures Settled(n, o)
    {
      Untouched(nodes, n, m, o, seed);
    }
  }

  /** What the verdict tells of the levels in the end. */
  ghost predicate Tells(nodes: seq<Node>, pairs: seq<seq<Arc>>, offending: Measure, verdict: Verdict, o: Levels)
  {
    var bad := BadPairs(nodes, offending, o);
    match verdict
    case Clear => bad == []
    case Stuck => bad != [] && forall k :: k in bad ==> Exhausted(PairAt(pairs, k), o)
    case Capped => true
  }

  /** On the way from m to o the levels were w, and then a pair with an arc on the cell of a measured badly. */
  ghost predicate PairBlamedAt(nodes: seq<Node>, pairs: seq<seq<Arc>>, offending: Measure, m: Levels, w: Levels,
                               o: Levels, a: Arc) {
    Rises(m, w) && Rises(w, o) && PairListed(pairs, BadPairs(nodes, offending, w), a)
  }

  lemma {:induction false} HandleRises(nodes: seq<Node>, pairs: seq<seq<Arc>>, offending: Measure, rounds: nat,
                                       m: Levels)
    requires Sound(nodes, m) && PairsIn(nodes, pairs)
    ensures var h := Handle(nodes, pairs, offending, rounds, m);
      Sound(nodes, h.levels) && Rises(m, h.levels) && h.levels.Keys == m.Keys == All(nodes) &&
      Tells(nodes, pairs, offending, h.verdict, h.levels) &&
      (h.verdict == Capped ==> RoomOf(nodes, h.levels) + rounds <= RoomOf(nodes, m))
  {
    hide Sound, Advanced, WellFormed, All, Coherent, InRange, TargetsOf, Exhausted, AllSettled, Fix, RoomOf, PairsMove,
      SettledOutside, BlamedAt, Resting, BadPairs, PairListed;
    SoundParts(nodes, m);
    var bad := BadPairs(nodes, offending, m);
    if rounds > 0 && bad != [] {
      var s := PairsMove(pairs, bad, m);
      PairsAdvance(nodes, pairs, bad, m);
      IdleIsIdle(m, s.levels, s.touched);
      if s.touched != {} {
        var f := Fix(nodes, MAX_ROUNDS, s.touched, s.levels);
        FixAdvances(nodes, MAX_ROUNDS, s.touched, s.levels);
        SoundParts(nodes, s.levels);
        SoundParts(nodes, f.levels);
        RoomOfShrinks(nodes, m, s.levels, s.touched);
        RoomOfSinks(nodes, s.levels, f.levels);
        HandleRises(nodes, pairs, offending, rounds - 1, f.levels);
      }
    }
  }

  lemma {:induction false} HandleSettles(nodes: seq<Node>, pairs: seq<seq<Arc>>, offending: Measure, rounds: nat,
                                         m: Levels)
    requires Sound(nodes, m) && PairsIn(nodes, pairs) && AllSettled(nodes, m)
    ensures var h := Handle(nodes, pairs, offending, rounds, m);
      h.settled ==> AllSettled(nodes, h.levels)
  {
    hide Sound, Advanced, WellFormed, All, Coherent, InRange, TargetsOf, Exhausted, AllSettled, Fix, RoomOf, PairsMove,
      SettledOutside, BlamedAt, Resting, BadPairs, PairListed;
    var bad := BadPairs(nodes, offending, m);
    if rounds > 0 && bad != [] {
      var s := PairsMove(pairs, bad, m);
      PairsAdvance(nodes, pairs, bad, m);
      if s.touched == {} {
        IdleIsIdle(m, s.levels, s.touched);
      } else {
        var f := Fix(nodes, MAX_ROUNDS, s.touched, s.levels);
        FixAdvances(nodes, MAX_ROUNDS, s.touched, s.levels);
        SeedKeeps(nodes, m, s.levels, s.touched);
        if f.settled {
          HandleSettles(nodes, pairs, offending, rounds - 1, f.levels);
        }
      }
    }
  }

  lemma HandleMoves(nodes: seq<Node>, pairs: seq<seq<Arc>>, offending: Measure, rounds: nat, m: Levels)
    requires Sound(nodes, m) && PairsIn(nodes, pairs)
    ensures var h := Handle(nodes, pairs, offending, rounds, m);
      (h.levels == m <==> rounds == 0 || NothingToPair(nodes, pairs, offending, m)) &&
      (rounds > 0 ==> TargetsRise(nodes, pairs, offending, m, h.levels))
  {
    hide Sound, Advanced, WellFormed, All, Coherent, InRange, TargetsOf, Exhausted, AllSettled, Fix, RoomOf, PairsMove,
      SettledOutside, BlamedAt, Resting, BadPairs, PairListed, Tells;
    var bad := BadPairs(nodes, offending, m);
    if rounds > 0 && bad != [] {
      var s := PairsMove(pairs, bad, m);
      PairsAdvance(nodes, pairs, bad, m);
      IdleIsIdle(m, s.levels, s.touched);
      if s.touched != {} {
        var f := Fix(nodes, MAX_ROUNDS, s.touched, s.levels);
        FixAdvances(nodes, MAX_ROUNDS, s.touched, s.levels);
        HandleRises(nodes, pairs, offending, rounds - 1, f.levels);
        var o := Handle(nodes, pairs, offending, rounds - 1, f.levels).levels;
        RisesTrans(s.levels, f.levels, o);
        StaysRisen(m, s.levels, o);
      }
    }
  }

  /** The pair guards as a whole. Levels only rise. Nothing moves exactly when no pair that measures badly has an arc
      that can step; otherwise every target of every such pair is higher in the end. They stop because no pair measures
      badly, or because no arc of those that do can step, or at the cap, and then every round used up a level. */
  lemma HandleAdvances(nodes: seq<Node>, pairs: seq<seq<Arc>>, offending: Measure, rounds: nat, m: Levels)
    requires Sound(nodes, m) && PairsIn(nodes, pairs)
    ensures var h := Handle(nodes, pairs, offending, rounds, m);
      Sound(nodes, h.levels) && Rises(m, h.levels) && h.levels.Keys == All(nodes) &&
      Tells(nodes, pairs, offending, h.verdict, h.levels) &&
      (h.verdict == Capped ==> RoomOf(nodes, h.levels) + rounds <= RoomOf(nodes, m)) &&
      (h.settled && AllSettled(nodes, m) ==> AllSettled(nodes, h.levels)) &&
      (h.levels == m <==> rounds == 0 || NothingToPair(nodes, pairs, offending, m)) &&
      (rounds > 0 ==> TargetsRise(nodes, pairs, offending, m, h.levels))
  {
    hide Sound, All, AllSettled, Handle, RoomOf, NothingToPair, TargetsRise, Tells, Rises;
    HandleRises(nodes, pairs, offending, rounds, m);
    HandleMoves(nodes, pairs, offending, rounds, m);
    if AllSettled(nodes, m) {
      HandleSettles(nodes, pairs, offending, rounds, m);
    }
  }

  /** No pair that measures badly has an arc that can step. */
  ghost predicate NothingToPair(nodes: seq<Node>, pairs: seq<seq<Arc>>, offending: Measure, m: Levels) {
    forall k :: k in BadPairs(nodes, offending, m) ==> Exhausted(PairAt(pairs, k), m)
  }

  /** Every arc that was to step for a pair that measured badly at m is higher in o. */
  ghost predicate TargetsRise(nodes: seq<Node>, pairs: seq<seq<Arc>>, offending: Measure, m: Levels, o: Levels) {
    forall k, a :: k in BadPairs(nodes, offending, m) && a in TargetsOf(PairAt(pairs, k), m) ==>
      a in m && a in o && m[a] < o[a]
  }

  /** At levels w, on the way from m to o, there was a reason for the cell of a to rise: a fault of a part or a node,
      or a pair that measured badly. */
  ghost predicate ReasonAt(nodes: seq<Node>, pairs: seq<seq<Arc>>, offending: Measure, m: Levels, w: Levels, o: Levels,
                           a: Arc) {
    BlamedAt(nodes, m, w, o, a) || PairBlamedAt(nodes, pairs, offending, m, w, o, a)
  }

  lemma ReasonWider(nodes: seq<Node>, pairs: seq<seq<Arc>>, offending: Measure, m: Levels, mid: Levels, w: Levels,
                    q: Levels, o: Levels, a: Arc)
    requires ReasonAt(nodes, pairs, offending, mid, w, q, a) && Rises(m, mid) && Rises(q, o)
    ensures ReasonAt(nodes, pairs, offending, m, w, o, a)
  {
    hide FaultAt, PairListed;
  }

  /** Every level that rose did so for a reason met on the way. */
  lemma {:induction false} HandleBlamed(nodes: seq<Node>, pairs: seq<seq<Arc>>, offending: Measure, rounds: nat,
                                        m: Levels, o: Levels, a: Arc)
    requires Sound(nodes, m) && PairsIn(nodes, pairs) && o == Handle(nodes, pairs, offending, rounds, m).levels
    requires a in m && a in o && m[a] < o[a]
    ensures exists w :: ReasonAt(nodes, pairs, offending, m, w, o, a)
  {
    hide Sound, Advanced, WellFormed, All, Coherent, InRange, TargetsOf, Exhausted, Fix, PairsMove, Resting, BadPairs,
      PairListed, FaultAt, AllSettled, SettledOutside, RoomOf, BlamedAt, NothingToPair, TargetsRise, Tells;
    HandleAdvances(nodes, pairs, offending, rounds, m);
    var bad := BadPairs(nodes, offending, m);
    var s := PairsMove(pairs, bad, m);
    PairsAdvance(nodes, pairs, bad, m);
    IdleIsIdle(m, s.levels, s.touched);
    var f := Fix(nodes, MAX_ROUNDS, s.touched, s.levels);
    FixAdvances(nodes, MAX_ROUNDS, s.touched, s.levels);
    HandleAdvances(nodes, pairs, offending, rounds - 1, f.levels);
    SameKeys(nodes, m, s.levels);
    if m[a] < s.levels[a] {
      PairReason(nodes, pairs, offending, m, s.levels, o, a);
    } else if s.levels[a] < f.levels[a] {
      var w :| BlamedAt(nodes, s.levels, w, f.levels, a);
      ReasonWider(nodes, pairs, offending, m, s.levels, w, f.levels, o, a);
    } else {
      HandleBlamed(nodes, pairs, offending, rounds - 1, f.levels, o, a);
      var w :| ReasonAt(nodes, pairs, offending, f.levels, w, o, a);
      RisesTrans(m, s.levels, f.levels);
      RisesStill(o);
      ReasonWider(nodes, pairs, offending, m, f.levels, w, o, o, a);
    }
  }

  lemma PairReason(nodes: seq<Node>, pairs: seq<seq<Arc>>, offending: Measure, m: Levels, mid: Levels, o: Levels,
                   a: Arc)
    requires Rises(m, mid) && Rises(mid, o) && PairListed(pairs, BadPairs(nodes, offending, m), a)
    ensures ReasonAt(nodes, pairs, offending, m, m, o, a)
  {
    hide PairListed;
  }

  lemma SameKeys(nodes: seq<Node>, m: Levels, o: Levels)
    requires Sound(nodes, m) && Sound(nodes, o)
    ensures m.Keys == o.Keys
  {
  }

  lemma RisesTrans(m: Levels, mid: Levels, o: Levels)
    requires Rises(m, mid) && Rises(mid, o)
    ensures Rises(m, o)
  {
  }

  lemma RoomOfSinks(nodes: seq<Node>, m: Levels, o: Levels)
    requires m.Keys == All(nodes) && Rises(m, o)
    ensures RoomOf(nodes, o) <= RoomOf(nodes, m)
  {
    RoomOfGrows(nodes, o, m);
  }


  const PAIR_ROUNDS: nat := 6

  method BadNow(nodes: seq<Node>, ghost pairs: seq<seq<Arc>>, offending: Measure) returns (bad: seq<nat>)
    requires Measures(pairs, offending)
    ensures forall k :: k in bad ==> k < |pairs|
    ensures bad == BadPairs(nodes, offending, State(All(nodes)))
  {
    OrderIsAll(nodes);
    ReadIsVector(Order(nodes), All(nodes));
    bad := offending(Read(Order(nodes)));
  }

  /** One round on the pairs that measure badly: steps them all. */
  method StepBad(nodes: seq<Node>, pairs: seq<seq<Arc>>, offending: Measure) returns (none: bool, seed: set<Key>)
    requires WellFormed(nodes) && InRange(State(All(nodes))) && PairsIn(nodes, pairs) && Measures(pairs, offending)
    modifies Cells(All(nodes))
    ensures Sound(nodes, State(All(nodes)))
    ensures none == (BadPairs(nodes, offending, old(State(All(nodes)))) == [])
    ensures none ==> State(All(nodes)) == old(State(All(nodes)))
    ensures Move(State(All(nodes)), seed) ==
            PairsMove(pairs, BadPairs(nodes, offending, old(State(All(nodes)))), old(State(All(nodes))))
  {
    hide All, InRange, WellFormed, Coherent, Sound, TargetsOf, Exhausted, PairListed, Advanced, BadPairs;
    ghost var m := State(All(nodes));
    SoundState(nodes);
    var bad := BadNow(nodes, pairs, offending);
    assert State(All(nodes)) == m;
    PairsAdvance(nodes, pairs, bad, m);
    seed := StepPairs(pairs, bad, nodes);
    none := bad == [];
  }

  method PairRounds(nodes: seq<Node>, pairs: seq<seq<Arc>>, offending: Measure)
    returns (verdict: Verdict, settled: bool)
    requires WellFormed(nodes) && InRange(State(All(nodes))) && PairsIn(nodes, pairs) && Measures(pairs, offending)
    modifies Cells(All(nodes))
    ensures Sound(nodes, State(All(nodes)))
    ensures Handled(State(All(nodes)), verdict, settled) ==
            Handle(nodes, pairs, offending, PAIR_ROUNDS, old(State(All(nodes))))
  {
    hide Cells, State, All, InRange, WellFormed, Advanced, Fix, PairsMove, TargetsOf, Exhausted, Coherent, Sound,
      PairListed, Resting, AllSettled, SettledOutside, RoomOf, BlamedAt, BadPairs, NothingToPair, TargetsRise;
    ghost var all := All(nodes);
    ghost var m := State(all);
    SoundState(nodes);
    settled := true;
    for round := 0 to PAIR_ROUNDS
      invariant Sound(nodes, State(all))
      invariant var h := Handle(nodes, pairs, offending, PAIR_ROUNDS - round, State(all));
        Handle(nodes, pairs, offending, PAIR_ROUNDS, m) == Handled(h.levels, h.verdict, settled && h.settled)
    {
      SoundParts(nodes, State(all));
      var none, seed := StepBad(nodes, pairs, offending);
      if none {
        return Clear, settled;
      }
      if seed == {} {
        return Stuck, settled;
      }
      SoundParts(nodes, State(all));
      FixAdvances(nodes, MAX_ROUNDS, seed, State(all));
      var one := ValidateRounds(nodes, MAX_ROUNDS, seed);
      settled := settled && one;
    }
    verdict := Capped;
  }

  /** Pair guards: up to six rounds of stepping the pairs that measure badly and settling the nodes they touch. The
      verdict says why they stopped: no pair measures badly, or none that does has an arc left to step, or six rounds
      each used up a level. */
  method PairGuards(nodes: seq<Node>, pairs: seq<seq<Arc>>, offending: Measure)
    returns (verdict: Verdict, settled: bool)
    requires WellFormed(nodes) && InRange(State(All(nodes))) && PairsIn(nodes, pairs) && Measures(pairs, offending)
    modifies Cells(All(nodes))
    ensures Handled(State(All(nodes)), verdict, settled) ==
            Handle(nodes, pairs, offending, PAIR_ROUNDS, old(State(All(nodes))))
    ensures InRange(State(All(nodes)))
    ensures forall a :: a in All(nodes) ==> old(a.At()) <= a.At()
    ensures Tells(nodes, pairs, offending, verdict, State(All(nodes)))
    ensures verdict == Capped ==>
              RoomOf(nodes, State(All(nodes))) + PAIR_ROUNDS <= old(RoomOf(nodes, State(All(nodes))))
    ensures State(All(nodes)) == old(State(All(nodes))) <==>
              old(NothingToPair(nodes, pairs, offending, State(All(nodes))))
    ensures TargetsRise(nodes, pairs, offending, old(State(All(nodes))), State(All(nodes)))
    ensures settled && old(AllSettled(nodes, State(All(nodes)))) ==> AllSettled(nodes, State(All(nodes)))
  {
    hide WellFormed, All, Cells, NothingToPair, TargetsRise, AllSettled, RoomOf, Handle, Tells;
    ghost var m := State(All(nodes));
    SoundState(nodes);
    HandleAdvances(nodes, pairs, offending, PAIR_ROUNDS, m);
    verdict, settled := PairRounds(nodes, pairs, offending);
    LevelsOf(All(nodes));
  }

  // --------------------------------------------------------------- the stage

  /** The stage in its order: settle, guard the pairs, polish, guard the pairs again. */
  ghost function Smoothed(nodes: seq<Node>, rings: seq<Ring>, pairs: seq<seq<Arc>>, offending: Measure, m: Levels):
    Handled
  {
    var first := Fix(nodes, MAX_ROUNDS, Keys(nodes), m);
    var second := Handle(nodes, pairs, offending, PAIR_ROUNDS, first.levels);
    var third := Handle(nodes, pairs, offending, PAIR_ROUNDS, Polished(nodes, rings, SWEEPS, second.levels));
    Handled(third.levels, third.verdict, first.settled && second.settled && third.settled)
  }

  /** If its fixpoints settle all nodes are settled, and the verdict says whether a pair still measures badly. Levels
      that are settled, with no pair to step and nothing to give back, are left alone. */
  lemma SmoothedSettles(nodes: seq<Node>, rings: seq<Ring>, pairs: seq<seq<Arc>>, offending: Measure, m: Levels)
    requires Sound(nodes, m) && RingsIn(nodes, rings) && PairsIn(nodes, pairs)
    ensures var h := Smoothed(nodes, rings, pairs, offending, m);
      Sound(nodes, h.levels) && (h.settled ==> AllSettled(nodes, h.levels)) &&
      Tells(nodes, pairs, offending, h.verdict, h.levels) &&
      (AllSettled(nodes, m) && NothingToPair(nodes, pairs, offending, m) && NothingToGive(nodes, rings, m) ==>
         h.levels == m)
  {
    hide Sound, Fix, Handle, Polished, NothingToPair, NothingToGive, AllSettled, Tells, WellFormed, All, Relaxed,
      Dropped,
      FromReverted, TargetsRise, RoomOf, BlamedAt, Resting, SettledOutside, Rises;
    var first := Fix(nodes, MAX_ROUNDS, Keys(nodes), m);
    FixAdvances(nodes, MAX_ROUNDS, Keys(nodes), m);
    NoneOutside(nodes, m);
    QuietRoundSettles(nodes, Keys(nodes), m);
    var second := Handle(nodes, pairs, offending, PAIR_ROUNDS, first.levels);
    HandleAdvances(nodes, pairs, offending, PAIR_ROUNDS, first.levels);
    var polished := Polished(nodes, rings, SWEEPS, second.levels);
    PolishedRelaxes(nodes, rings, SWEEPS, second.levels);
    if AllSettled(nodes, second.levels) {
      RelaxedSettled(nodes, second.levels, polished);
    }
    HandleAdvances(nodes, pairs, offending, PAIR_ROUNDS, polished);
  }

  /** The four stages in between: f after settling, a after the first pair guards, b after polishing. */
  lemma SmoothedStages(nodes: seq<Node>, rings: seq<Ring>, pairs: seq<seq<Arc>>, offending: Measure, m: Levels)
    requires Sound(nodes, m) && RingsIn(nodes, rings) && PairsIn(nodes, pairs)
    ensures exists f, a, b ::
              (f == m <==> AllSettled(nodes, m)) &&
              Rises(f, a) && TargetsRise(nodes, pairs, offending, f, a) &&
              Polishes(nodes, rings, a, b) && (b == a <==> NothingToGive(nodes, rings, a)) &&
              Rises(b, Smoothed(nodes, rings, pairs, offending, m).levels) &&
              TargetsRise(nodes, pairs, offending, b, Smoothed(nodes, rings, pairs, offending, m).levels)
  {
    hide Sound, Fix, Handle, Polished, NothingToPair, NothingToGive, AllSettled, Tells, WellFormed, All, Relaxed,
      Dropped,
      FromReverted, TargetsRise, RoomOf, BlamedAt, Resting, SettledOutside, Rises;
    var first := Fix(nodes, MAX_ROUNDS, Keys(nodes), m);
    FixAdvances(nodes, MAX_ROUNDS, Keys(nodes), m);
    NoneOutside(nodes, m);
    QuietRoundSettles(nodes, Keys(nodes), m);
    var second := Handle(nodes, pairs, offending, PAIR_ROUNDS, first.levels);
    HandleAdvances(nodes, pairs, offending, PAIR_ROUNDS, first.levels);
    var polished := Polished(nodes, rings, SWEEPS, second.levels);
    PolishedRelaxes(nodes, rings, SWEEPS, second.levels);
    HandleAdvances(nodes, pairs, offending, PAIR_ROUNDS, polished);
  }

  lemma NoneOutside(nodes: seq<Node>, m: Levels)
    ensures SettledOutside(nodes, Keys(nodes), m)
  {
  }

  /** The whole smoothing stage. However the geometry behaves, every level ends within its ladder; unless an inner
      fixpoint hit its cap, every node ends settled; and the verdict says whether a pair still measures badly. */
  method Smooth(nodes: seq<Node>, rings: seq<Ring>, pairs: seq<seq<Arc>>, offending: Measure)
    returns (verdict: Verdict, settled: bool)
    requires WellFormed(nodes) && InRange(State(All(nodes))) && RingsIn(nodes, rings)
    requires PairsIn(nodes, pairs) && Measures(pairs, offending)
    modifies Cells(All(nodes))
    ensures Handled(State(All(nodes)), verdict, settled) ==
            Smoothed(nodes, rings, pairs, offending, old(State(All(nodes))))
    ensures InRange(State(All(nodes)))
    ensures settled ==> AllSettled(nodes, State(All(nodes)))
    ensures Tells(nodes, pairs, offending, verdict, State(All(nodes)))
    ensures var was := old(State(All(nodes)));
      AllSettled(nodes, was) && NothingToPair(nodes, pairs, offending, was) && NothingToGive(nodes, rings, was) ==>
        State(All(nodes)) == was
  {
    hide WellFormed, All, Cells, NothingToPair, AllSettled, Tells, Fix, Handle, Polished, NothingToGive, Relaxed,
      Dropped,
      FromReverted, Coherent;
    SoundState(nodes);
    SmoothedSettles(nodes, rings, pairs, offending, State(All(nodes)));
    var first := ValidateRounds(nodes, MAX_ROUNDS, Keys(nodes));
    var _, second := PairRounds(nodes, pairs, offending);
    Polish(nodes, rings);
    var third;
    verdict, third := PairRounds(nodes, pairs, offending);
    settled := first && second && third;
  }
}
