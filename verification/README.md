# Map pipeline: a verified model

This project models the algorithmic core of the offline map pipeline (`tools/map_pipeline`) and the one-time link store
of the backend (`backend/src/core/admin`), and proves what they promise. Code that works in place is modelled in place:
label arrays, worklists over shared ladder cells, dictionaries that are edited entry by entry, union-find parents that are
halved on the way up. Each such method is tied to a specification, and the promises are proved about the specification.

Check everything with `dafny verify dfyconfig.toml`.

## The parts

| file | what it holds |
|---|---|
| `Walks.dfy` | walks in a graph and the theory of a multi-source breadth-first search: what a frontier guarantees, and that an exhausted search knows the nearest and earliest seed of every reachable vertex |
| `Seas.dfy` | sea labelling: seed snapping and placement, the plain search, the component shortcut, and the proof that both paint the same raster |
| `Stroke.dfy` | the drawn split line: farthest pixel, shortest stroke path |
| `Ladder.dfy` | the smoothing ladder: arcs and shared chains with levels, trial steps, the structural and the guard pass, the dirty-set worklist |
| `Smoothing.dfy` | the rest of that stage: polishing, pair guards, the stage as a whole |
| `Pairing.dfy` | which contour runs of two neighbours are paired, and the chain a pair shares |
| `RingTiling.dfy` | cutting a closed contour into runs of equal label, and slicing the polyline of each run |
| `Optional.dfy`, `Sorting.dfy`, `Forest.dfy`, `Components.dfy` | values that may be missing, sorting by integer pairs, union-find with path halving, connected components |
| `Contacts.dfy`, `ContactEdges.dfy` | exact pixel contact counts and the automatic coast and sea edges they give |
| `NodeGraph.dfy`, `Manifest.dfy` | manual overrides, the graph's own checker, the manifest's checker, and when the two agree |
| `Clusters.dfy` | clusters of close polygon parts, and the patches that move whole clusters between provinces |
| `IdLock.dfy` | the append-only id lock over whole histories of runs, renames, the canonical text |
| `PathText.dfy` | the canonical path text: number printing, orientation, the printer and the parser |
| `PanelLinks.dfy` | the bounded, expiring, single-use link store over whole runs |

What is outside the code is a parameter: polygon validity, node guards, signatures, probes and offending pairs are arbitrary
functions of level vectors; distances between parts or runs, point-in-part tests, areas and fusing are arbitrary functions
of the parts; clock readings, tokens and their hash are arguments. Coordinates, lengths and positions are exact reals.

## What came out

* The label a pixel gets is fixed by distances alone: its nearest seed, the earliest queued one among several. The order in
  which neighbours are tried does not matter, and the component shortcut paints exactly the same raster.
* Leaving the validation worklist because nothing was touched means every node is settled: each of its parts is valid or
  has no arc left that can step, and when all parts are valid it passes its guard or has no arc left that can step. This
  holds whatever polygon validity and the node guard are. Leaving it by the round cap means only that each round used up some level.
* Rounds end by themselves: more rounds than there are levels left cannot be needed.
* No level rises without a cause: an invalid part, a failed guard on valid parts or an offending pair met on the way. A map
  with nothing to do is left alone, and whatever there is to do moves: exact conditions for both.
* Polishing gives back one level per arc at most, always from the top, and only on rings that were fully reverted before it.
* Two checkers of the same graph disagree in exactly two ways: a strait added by hand has no name and is rejected later, and
  an empty graph is accepted only by the first (`Manifest.CheckersAgree`, with an input for each).
* A rename back to a former key is accepted by one run and its lock refused by the next. In general the lock a run writes
  loads again exactly when no current key and no rename target is a former key: recorded in the lock the run started from, a
  rename source, or a key a rename of the run moved an id away from. Nothing is asked of the renames but what the command
  documents, that their targets are current keys. When targets need not be current and only differ, as the patch check
  demands, a second thing can go wrong: a rename moves an id away from a key its node had given up before.
* A rename to a key that holds no id and is not current, with no id to move, ends in a failure to write: the chain it
  leaves has no entry to sort by. That happens exactly when the target held none as well when the rename led to it, is no current
  key, and no rename of the run moves an id there then or later.
* The area-drift check of `detach` can never fire.
* The printed path text reads back exactly when every ring has three points and every exterior has some area; a hole of
  zero area is harmless. The stripping of zeros after a decimal quotient never has anything to strip.
* The greedy second phase of the run matching is stable: no two runs within reach are both closer to each other than to the
  partners they got.
* A manifest tells the edges of a graph apart but for their manual flags and for lengths that agree to three decimals.
* The boundaries of a contour are found in order, so sorting them never changes anything.

## Model

| member | source | states |
|---|---|---|
| `Walks.SearchComplete` | tools/map_pipeline/seas.py:299-343 | an exhausted multi-source search has recorded exactly the vertices some walk from a seed reaches, each with the distance to its nearest seed and the number of the earliest such seed |
| `Walks.WalkBound` | tools/map_pipeline/seas.py:326-343 | no walk from any seed beats what the search recorded, by length and then by seed number |
| `Seas.TerritoryIs` | tools/map_pipeline/seas.py:299-343 | the label a pixel is owed is that of the earliest queued among its nearest seeds, by distance inside working water |
| `Seas.TerritoryConnected` | tools/map_pipeline/seas.py:299-343 | a labelled pixel reaches a seed of its zone by a walk through pixels owed to that same zone |
| `Seas.VisitNeighbours` | tools/map_pipeline/seas.py:332-343 | taking one pixel from the queue labels its unlabelled working neighbours, queues them last, and keeps the frontier: the queue is the unexpanded part of the search |
| `Seas.Spread` | tools/map_pipeline/seas.py:330-343 | the search over a seed queue, writing labels in place, gives every reachable pixel the label of its nearest, earliest seed and changes no other pixel |
| `Seas.PlainSearch` | tools/map_pipeline/seas.py:299-343 | started on a seeded raster, the plain search leaves exactly the territories |
| `Seas.OnlyClaims` | tools/map_pipeline/seas.py:326-328 | filtering the seed queue to the contested components keeps which seed claims a pixel there, and at what distance |
| `Seas.ShortcutExact` | tools/map_pipeline/seas.py:312-343 | labelling uncontested components wholesale and searching the filtered queue leaves exactly the territories |
| `Seas.GrowLabels` | tools/map_pipeline/seas.py:299-343 | after growth every pixel of the raster carries its territory, and no pixel outside working water is labelled |
| `Seas.PlainLabels` | tools/map_pipeline/seas.py:330-343 | the search over the whole seed queue, without the shortcut, leaves exactly the territories |
| `Seas.ShortcutRefinesPlain` | tools/map_pipeline/seas.py:299-343 | run side by side on one seeded raster, growth with the shortcut and the plain search leave the same raster, and no pixel outside working water is labelled |
| `Seas.SnapSeed` | tools/map_pipeline/seas.py:216-245 | the working pixel within the window nearest to the seed, ties to the first in row-major order; none exactly when the window holds no working pixel |
| `Seas.SnappedUnique` | tools/map_pipeline/seas.py:216-245 | that description fixes the pixel |
| `Seas.PlaceSeeds` | tools/map_pipeline/seas.py:248-296 | every seed that snaps is recorded in order with its zone, every one that does not is an error unless its zone is retired, the first taker labels and queues a pixel, later takers are marked as claimed |
| `Seas.FirstsExact` | tools/map_pipeline/seas.py:282-295 | the queue holds each taken pixel once |
| `Seas.PlacedIsSeeded` | tools/map_pipeline/seas.py:248-296 | placement leaves a raster on which growth may start: labelled pixels are exactly the queued ones |
| `Stroke.BfsFarthest` | tools/map_pipeline/read_split_line.py:78-94 | the last pixel taken is at maximal 8-neighbour distance from the start among all it can reach, and the parent dictionary is a shortest-path tree of exactly those pixels |
| `Stroke.Exhausted` | tools/map_pipeline/read_split_line.py:85-94 | when the queue is empty exactly the reachable pixels are known, at their true distances, the last one farthest |
| `Stroke.TreeFarthest` | tools/map_pipeline/read_split_line.py:78-94 | a pixel of greatest depth in a shortest-path tree is a farthest pixel |
| `Stroke.ChainPath` | tools/map_pipeline/read_split_line.py:100-105 | walking parents back to the start and reversing gives a simple path of adjacent pixels, shortest between its ends |
| `Stroke.StrokePath` | tools/map_pipeline/read_split_line.py:97-105 | the stroke is such a path, its second end farthest from its first, its first farthest from some mask pixel |
| `Ladder.Arc.Step` | tools/map_pipeline/smooth.py:805-817 | one level up the ladder unless already at the top; a paired arc moves the shared cell and leaves its own |
| `Ladder.Arc.Unstep` | tools/map_pipeline/smooth.py:925-930 | one level down on the same cell |
| `Ladder.StepUnstep` | tools/map_pipeline/smooth.py:805-817 | stepping and unstepping an arc restores all levels, of its partner too |
| `Ladder.TrialStep` | tools/map_pipeline/smooth.py:945-974 | candidates are tried in order of their probe; the first whose step changes the signature is kept, every rejected trial restores all levels, and if none changes it the first candidate is stepped; the touched keys are those of the stepped arc |
| `Ladder.TrialUnique` | tools/map_pipeline/smooth.py:964-974 | no other outcome of a trial fits that description |
| `Ladder.TrialAdvances` | tools/map_pipeline/smooth.py:945-974 | a trial raises a cell of its own arcs and touches nothing exactly when no long arc of them can step |
| `Ladder.StructuralPart` | tools/map_pipeline/smooth.py:1034-1072 | a valid part is left alone; on any other the effect is one trial per ring that fails on its own, in turn, then one on the whole part if it is still invalid |
| `Ladder.PartAdvances` | tools/map_pipeline/smooth.py:1034-1072 | a part is left alone exactly when it is valid or none of its long arcs can step, and only its own cells rise |
| `Ladder.PartTrials` | tools/map_pipeline/smooth.py:1034-1072 | on an invalid part every failing ring that can step has an arc higher afterwards, and no level rises by more than the trials made |
| `Ladder.StructureAdvances` | tools/map_pipeline/smooth.py:1030-1072 | the pass moves nothing exactly when every part is valid or stuck; a level that rises is on a cell of a part that was invalid at levels passed in it |
| `Ladder.StructureRises` | tools/map_pipeline/smooth.py:1030-1072 | every part that is neither valid nor stuck when the pass starts has an arc higher when it ends |
| `Ladder.StructuralPass` | tools/map_pipeline/smooth.py:1030-1072 | the two loops over nodes and parts do just that |
| `Ladder.ClimbOne` | tools/map_pipeline/smooth.py:1101-1104 | stepping all arcs of a list once raises each cell by the times it is listed, at most to the top |
| `Ladder.ClimbRaises` | tools/map_pipeline/smooth.py:1101-1104 | every arc of the list that can step rises |
| `Ladder.GuardNode` | tools/map_pipeline/smooth.py:1076-1104 | a node passes exactly when its parts are valid and its guard holds; nothing steps unless the parts are valid and the guard fails, and then every arc steps once |
| `Ladder.GuardsAdvance` | tools/map_pipeline/smooth.py:1073-1105 | the pass moves nothing exactly when every dirty node with valid parts passes its guard or cannot step; a level that rises is on a cell of a node whose guard failed at levels passed in it |
| `Ladder.GuardsRise` | tools/map_pipeline/smooth.py:1073-1105 | every dirty node whose guard fails on valid parts when the pass starts has an arc higher when it ends, unless it cannot step |
| `Ladder.PassedAccepted` | tools/map_pipeline/smooth.py:1073-1106 | a node that passed and was not touched is accepted when the pass ends |
| `Ladder.GuardPass` | tools/map_pipeline/smooth.py:1073-1105 | the loop over the dirty nodes does just that and collects those that passed |
| `Ladder.RoundAdvances` | tools/map_pipeline/smooth.py:1029-1108 | a round touches nothing exactly when there is nothing to do; a level rises only on a cell of a part that was invalid in that round, or of a node whose guard failed in it |
| `Ladder.RoundRises` | tools/map_pipeline/smooth.py:1029-1108 | whatever was to be done when a round starts has an arc higher when it ends |
| `Ladder.RoundKeeps` | tools/map_pipeline/smooth.py:1106 | the rule that updates the dirty set keeps this: every node outside it is settled |
| `Ladder.QuietRoundSettles` | tools/map_pipeline/smooth.py:1106-1108 | with the nodes outside the dirty set settled, nothing is left to do exactly when all nodes are settled |
| `Ladder.RoomShrinks` | tools/map_pipeline/smooth.py:805-817 | levels that only rise lower the sum of levels left, strictly when one rises |
| `Ladder.RoomOfShrinks` | tools/map_pipeline/smooth.py:1029-1108 | a round that touches a node strictly lowers the sum of levels left |
| `Ladder.FixAdvances` | tools/map_pipeline/smooth.py:1029-1108 | the rounds together: levels rise only for faults met on the way, nothing moves exactly when there was nothing to do, leaving because nothing was touched settles every node, leaving by the cap means every round used up a level |
| `Ladder.Validate` | tools/map_pipeline/smooth.py:1001-1110 | all this of the method itself: levels in range, never sinking, moved exactly when something was to be done and only for a fault; whatever was to be done has an arc higher; settled when it leaves by itself; and with more rounds than levels left it always does |
| `Smoothing.TryUnstep` | tools/map_pipeline/smooth.py:1189-1202 | a level is given back exactly when all affected nodes stay accepted; otherwise all levels are restored |
| `Smoothing.UnstepKeeps` | tools/map_pipeline/smooth.py:1169-1197 | giving a level back that way leaves every accepted node accepted, and any node whose arc moved accepted |
| `Smoothing.PolishRing` | tools/map_pipeline/smooth.py:1181-1202 | a ring moves exactly when it is fully reverted and one of its arcs can be given back; then the first such arc gives back one level |
| `Smoothing.RingRelaxes` | tools/map_pipeline/smooth.py:1181-1202 | that is one level of one arc, from the top, and no accepted node is lost |
| `Smoothing.SweepRelaxes` | tools/map_pipeline/smooth.py:1179-1204 | a sweep moves nothing exactly when no fully reverted ring has an arc that can be given back |
| `Smoothing.PolishedRelaxes` | tools/map_pipeline/smooth.py:1179-1204 | over all sweeps an arc ends where it was or one below the top, only on cells of rings that were fully reverted at the start; in the end nothing is left to give back, or every sweep gave a level back |
| `Smoothing.RelaxedSettled` | tools/map_pipeline/smooth.py:1142-1205 | polishing a settled map leaves it settled |
| `Smoothing.Polish` | tools/map_pipeline/smooth.py:1142-1205 | all this of the method: something sinks exactly when a fully reverted ring had an arc that could be given back, three sweeps at most, accepted nodes stay accepted, settled maps stay settled |
| `Smoothing.Targets` | tools/map_pipeline/smooth.py:1325-1338 | the arcs to step for an offending pair: its steppable unpaired ones, or its steppable paired ones when there are none |
| `Smoothing.StepPair` | tools/map_pipeline/smooth.py:1325-1341 | each target steps once, and no shared chain moves while an unpaired arc can still step |
| `Smoothing.PairsAdvance` | tools/map_pipeline/smooth.py:1323-1343 | every target of every offending pair rises, no cell of any other pair does, and nothing is touched exactly when no arc of an offending pair can step |
| `Smoothing.HandleAdvances` | tools/map_pipeline/smooth.py:1314-1344 | the rounds together: nothing moves exactly when no offending pair can step, otherwise all their targets end higher; they stop because no pair offends, or no offending pair can step, or each of the rounds used up a level |
| `Smoothing.HandleBlamed` | tools/map_pipeline/smooth.py:1314-1344 | a level rises only for a fault of a part or node, or for a pair that offended, at levels passed on the way |
| `Smoothing.PairGuards` | tools/map_pipeline/smooth.py:1314-1345 | all this of the method, with a verdict that says why it stopped; a settled map stays settled when its inner fixpoints settle |
| `Smoothing.SmoothedStages` | tools/map_pipeline/smooth.py:1433-1440 | the stage runs through settling, pair guards, polishing and pair guards, each doing what it is for at the levels the one before left |
| `Smoothing.SmoothedSettles` | tools/map_pipeline/smooth.py:1433-1440 | settled maps with no pair to step and nothing to give back are left alone |
| `Smoothing.Smooth` | tools/map_pipeline/smooth.py:1433-1440 | the whole stage: every level in range, every node settled when the inner fixpoints settle, and the verdict of the closing pair guards holds |
| `Pairing.PairByEnds` | tools/map_pipeline/smooth.py:600-631 | phase 1 pairs runs mutually across the two sides, only with equal junction groups at both ends, and leaves no two such runs both unpaired |
| `Pairing.Closest` | tools/map_pipeline/smooth.py:636-646 | the closest two runs left, if any are within eps |
| `Pairing.PairByGap` | tools/map_pipeline/smooth.py:633-651 | phase 2 keeps earlier pairs and is stable: of two runs within eps, one has a partner at least as close |
| `Pairing.MatchSides` | tools/map_pipeline/smooth.py:596-651 | both phases on one pair of nodes: mutual partners on opposite sides, ends exhausted, the rest stable |
| `Pairing.GroupByPair` | tools/map_pipeline/smooth.py:587-594 | every labelled run of more than a point lies on exactly its own side of its own pair, in contour order |
| `Pairing.MatchPairs` | tools/map_pipeline/smooth.py:585-652 | partner is a symmetric involution between runs that face each other's nodes; of any two opposite runs none was better left for the other |
| `Pairing.UnmatchedApart` | tools/map_pipeline/smooth.py:633-651 | two opposite runs both left unmatched are further apart than eps and do not share both junction groups |
| `Pairing.DropMixed` | tools/map_pipeline/smooth.py:670-677 | exactly the pairs of a whole ring with an open run are undone, on both sides |
| `Pairing.BuildLadder` | tools/map_pipeline/smooth.py:741-769 | three levels, each the smoothed line, or the run's own line where a whole ring is too short or flat on the grid, or its two ends where an open line is too short |
| `Pairing.ShareChain` | tools/map_pipeline/smooth.py:755-788 | both runs get one chain and fit each of its levels between their own ends |
| `Pairing.BuildChains` | tools/map_pipeline/smooth.py:710-788 | every matched pair shares one chain that no other run has, its three lines built by the rules from the run listed first, and follows it; runs without a partner keep theirs |
| `Pairing.CellsArePairs` | tools/map_pipeline/smooth.py:820-825 | what the ladder asks of its cells: the runs at a chain are a pair, so stepping one affects the nodes of both, and every ladder has a rung |
| `Pairing.SharedInterior` | tools/map_pipeline/smooth.py:773-788 | at every level the interiors of an open matched pair are equal up to reversal |
| `RingTiling.LabelSample` | tools/map_pipeline/borders_proto/compute.py:152-160 | a labelled sample is within the band and no neighbour is closer by more than the accumulated margin; a coast sample has no neighbour inside the band by more than that |
| `RingTiling.NeverOneChange` | tools/map_pipeline/borders_proto/compute.py:178-190 | a cyclic label sequence never has exactly one change |
| `RingTiling.RunLabel` | tools/map_pipeline/borders_proto/compute.py:178-188 | between a change and the next one, the ring's start included, the label is constant |
| `RingTiling.FoundInOrder` | tools/map_pipeline/borders_proto/compute.py:178-191 | boundaries lie inside the ring and come in strictly increasing order, so sorting them changes nothing |
| `RingTiling.RingArcs` | tools/map_pipeline/borders_proto/compute.py:163-211 | one closed arc when all labels agree; otherwise two or more arcs end to end once around the ring, one for each sample followed by another label, starting halfway between the two (the ring's end being the place of the first), neighbours differing in label and agreeing on the labels that meet, each sample in an arc of its own label, each polyline the ring between the arc's ends |
| `RingTiling.SpansFill` | tools/map_pipeline/borders_proto/compute.py:192-211 | the spans add up to the ring's length |
| `RingTiling.CoveredOnce` | tools/map_pipeline/borders_proto/compute.py:192-211 | every position of the ring, the wrap included, lies in exactly one arc |
| `RingTiling.InterpOnRing` | tools/map_pipeline/borders_proto/compute.py:98-106 | the interpolated point lies on the segment holding the position, as far along as the position says; at a vertex it is the vertex |
| `RingTiling.InnerMeans` | tools/map_pipeline/borders_proto/compute.py:115-125 | a vertex is inside a slice exactly when its position is strictly between the ends, or outside them when the slice wraps |
| `RingTiling.InnerOrder` | tools/map_pipeline/borders_proto/compute.py:115-125 | the vertices of a slice come in the order in which they are met going round from its start |
| `RingTiling.VertexOnce` | tools/map_pipeline/borders_proto/compute.py:109-134 | every ring vertex off a boundary is inside exactly one slice, and there once |
| `RingTiling.BoundaryVertex` | tools/map_pipeline/borders_proto/compute.py:109-134 | a vertex on a boundary is inside no slice |
| `RingTiling.SlicesMeet` | tools/map_pipeline/borders_proto/compute.py:126-128 | the slice of an arc ends where the next arc's slice begins, before close points are dropped |
| `RingTiling.DedupApart` | tools/map_pipeline/borders_proto/compute.py:130-134 | points kept are further apart than 1e-9 from the one before and come from the slice |
| `RingTiling.DedupKeeps` | tools/map_pipeline/borders_proto/compute.py:130-134 | every point dropped is within 1e-9 of one kept, and the last point of the last one kept |
| `RingTiling.SliceRing` | tools/map_pipeline/borders_proto/compute.py:109-134 | the slice's polyline: both interpolated ends, the vertices between them, close points dropped |
| `Forest.UnionFind.Find` | tools/map_pipeline/graph.py:342-346 | returns the root of the class, keeps every class while halving the path, keeps parents no larger than their children |
| `Forest.Halve` | tools/map_pipeline/graph.py:342-346 | pointing a node at its grandparent keeps the forest acyclic, keeps every root, and moves strictly closer to it |
| `Forest.UnionFind.Link` | tools/map_pipeline/graph.py:348-351 | hanging one root under another merges exactly those two classes |
| `Forest.UnionFind.RootIsLeast` | tools/map_pipeline/graph.py:338-356 | with the larger root always hung under the smaller, each root is the least member of its class |
| `Forest.MergeClasses` | tools/map_pipeline/graph.py:348-351 | after joining the ends of one more pair the classes are the connected classes of the pairs with it |
| `Components.ConnectedComponents` | tools/map_pipeline/graph.py:338-356 | the groups are exactly the connected components: every id in one group, two ids together exactly when connected, each group ascending, largest first, then by least member |
| `Components.SortedGroupsAreComponents` | tools/map_pipeline/graph.py:353-356 | sorting the classes by size and least member gives the components in that order |
| `Components.OneGroup` | tools/map_pipeline/graph.py:390-416 | one group exactly when the graph is connected and not empty |
| `Components.CountComponents` | tools/map_pipeline/manifest_schema.py:159-172 | the count of distinct roots is the number of connected components, and one exactly when the graph is connected and not empty |
| `NodeGraph.EdgeTable.ApplyRemoves` | tools/map_pipeline/graph.py:201-221 | reports exactly the entries with an unknown node, no automatic edge, or a pair an earlier entry names; the edges named are gone either way |
| `NodeGraph.EdgeTable.ApplyAdds` | tools/map_pipeline/graph.py:223-252 | reports exactly the entries with an unknown node or kinds the type does not allow; without any, pairs present are kept and new ones take their first entry's type |
| `NodeGraph.EdgeTable.ApplyStraits` | tools/map_pipeline/graph.py:254-291 | reports exactly the entries with an unknown or non-land end, an edge already there, or a pair an earlier land entry names; without any, the straits are added |
| `NodeGraph.EdgeTable.ApplyLinks` | tools/map_pipeline/graph.py:293-334 | reports exactly the entries with an unknown or non-land end, an edge other than a strait, or a pair an earlier land entry names; without any, linked pairs are land edges |
| `NodeGraph.EdgeTable.Apply` | tools/map_pipeline/graph.py:192-335 | no error exactly when the overrides are consistent, and then the table is the declared one; each section reports exactly its own bad entries while those before it are in order |
| `NodeGraph.OverrideSemantics` | tools/map_pipeline/graph.py:192-335 | a pair is in the declared table exactly when it is automatic and not removed, or added, a strait or linked; its edge, field by field, is a manual land edge if linked, else its strait with name and multiplier, else the surviving automatic edge, else a manual edge of the first entry that adds it |
| `NodeGraph.RealPairsAre` | tools/map_pipeline/graph.py:192-335 | the edges that count for connectivity without straits and manual edges are the automatic ones not removed: what overrides add never counts |
| `NodeGraph.CheckInvariants` | tools/map_pipeline/graph.py:359-416 | violations exactly when some edge breaks INV-M2, and exactly those pairs; otherwise sound exactly when the graph is connected (INV-M3), else all components but the largest; and whether it is connected without straits and manual edges |
| `NodeGraph.BuiltSound` | tools/map_pipeline/graph.py:472-481 | the sorted lists of a sound, connected table satisfy the invariants and hold exactly that table |
| `NodeGraph.BuildGraph` | tools/map_pipeline/graph.py:461-481 | a graph is built exactly when the overrides are consistent and the declared table is sound and connected; it holds exactly that table and the given nodes |
| `Contacts.CountContacts` | tools/map_pipeline/graph.py:107-148 | every count equals the brute-force count of neighbouring pixel pairs, and absent keys count nothing |
| `Contacts.SidesExact` | tools/map_pipeline/graph.py:107-148 | directed contacts are as many as undirected ones exactly when none occurs in both directions |
| `Contacts.CoastOncePerAdjacency` | tools/map_pipeline/graph.py:107-148 | a coast contact counts each adjacency once exactly when no two neighbours both carry the zone and the land; pixels labelled only one way guarantee it |
| `Contacts.SeaOncePerAdjacency` | tools/map_pipeline/graph.py:107-148 | contacts between two zones are always counted once |
| `ContactEdges.CoastEdges` | tools/map_pipeline/graph.py:167-176 | every coast contact of a live zone that reaches the minimum length has its edge, with its length, and nothing else has one |
| `ContactEdges.SeaEdges` | tools/map_pipeline/graph.py:177-184 | the same for sea contacts of two live zones, keeping the coast edges |
| `ContactEdges.MakeContactEdges` | tools/map_pipeline/graph.py:151-185 | from the two rasters: a coast or sea edge exactly when enough neighbouring pixels carry the two labels, with their number over the scale as its length, no other edge, and every edge satisfies INV-M2 |
| `ContactEdges.ContactsSound` | tools/map_pipeline/graph.py:151-185 | every automatic contact edge joins two different nodes, in order, of the kinds its type allows |
| `Manifest.ValidateManifest` | tools/map_pipeline/manifest_schema.py:175-295 | accepted exactly when node ids are in range, sorted and unique with unique keys, edges are sorted, unique, join nodes of fitting kinds and carry the right fields, the graph is connected, and node count, degrees, size and the ids with paths are within the limits |
| `Manifest.CheckersAgree` | tools/map_pipeline/manifest.py:143-163 | the edges of a sound graph as emitted pass the manifest checker exactly when there is a node and every strait has a name |
| `Manifest.EmitExact` | tools/map_pipeline/manifest.py:143-163 | two edge lists are emitted alike exactly when they differ in manual flags at most and in lengths only beyond three decimals, given that straits have no length and other edges no name or multiplier |
| `Manifest.BuiltPlain` | tools/map_pipeline/graph.py:192-335 | a built graph is like that when its automatic edges are |
| `Manifest.EmptyGraphRejected` | tools/map_pipeline/manifest_schema.py:287-294 | the empty graph is sound for the first checker and rejected by the second |
| `Manifest.NamelessStraits` | tools/map_pipeline/graph.py:223-252 | every strait is named exactly when no added strait survives as such |
| `Manifest.BuiltGraphValidates` | tools/map_pipeline/manifest_schema.py:111-131 | a graph built from named straits validates exactly when no entry adds a strait that survives |
| `Manifest.NamelessStraitTable` | tools/map_pipeline/graph.py:223-252 | a concrete added strait reaches the declared table without a name |
| `Manifest.NamelessStraitRejected` | tools/map_pipeline/manifest_schema.py:111-131 | that graph is sound for the first checker and rejected by the second |
| `Clusters.JoinClose` | tools/map_pipeline/patches.py:78-96 | joining every pair closer than the gap, in any direction of hanging, ends and leaves the connected classes of closeness |
| `Clusters.PartClusters` | tools/map_pipeline/patches.py:78-100 | the clusters are exactly the classes of the transitive closure of closer than the gap, ascending and in the order of their first members |
| `Clusters.ClusterAt` | tools/map_pipeline/patches.py:103-113 | the first cluster with a part at the point; none exactly when no part holds it |
| `Clusters.PickClusters` | tools/map_pipeline/patches.py:221-237 | takes the first cluster at each point in turn, none twice, or stops at the first point that lies in no part or in a cluster taken |
| `Clusters.PickedAndRest` | tools/map_pipeline/patches.py:239-240 | parts moved and parts left together are the parts there were |
| `Clusters.ChosenWhole` | tools/map_pipeline/patches.py:220-240 | a union of clusters is closed under closeness |
| `Clusters.WholeMeansSeparated` | tools/map_pipeline/patches.py:143-155 | no part left is closer than the gap to a moved one |
| `Clusters.AreaConserved` | tools/map_pipeline/patches.py:244-250 | moving parts conserves their total area, so the drift check of a detach never fires |
| `Clusters.Atlas.ApplyDetach` | tools/map_pipeline/patches.py:194-260 | all or nothing: on success whole clusters leave for the new province, which has parts if any point was given, the old one keeps some, the multiset of parts is conserved and no part left is close to a moved one; on refusal nothing changes and a reason holds |
| `Clusters.PlanTransfer` | tools/map_pipeline/patches.py:143-183 | a transfer goes through exactly when a cluster holds the point, something stays behind, it merges into one polygon or may stay detached, and the area balances; then the cluster moves whole |
| `Clusters.Atlas.ApplyTransferPart` | tools/map_pipeline/patches.py:116-191 | the same on the province table, touching only the two provinces; a transfer that does not touch conserves the multiset of parts |
| `IdLock.LockState.ApplyRename` | tools/map_pipeline/ids.py:53-82 | one rename on the two dictionaries is the rename on the lock as a value, or a collision |
| `IdLock.RenameOneKeeps` | tools/map_pipeline/ids.py:53-82 | a rename keeps ids unique, renumbers nothing, only grows lineages, records the old key, and supersedes exactly the old key and the key that moved |
| `IdLock.RenameOrder` | tools/map_pipeline/ids.py:73-82 | chains are oldest first: a recorded key goes last, what was recorded stays in front in its order, and a moved id brings its chain and then the key it leaves |
| `IdLock.RenameAllKeeps` | tools/map_pipeline/ids.py:40-82 | so does a whole list of renames |
| `IdLock.AssignIds` | tools/map_pipeline/ids.py:85-155 | exactly when each outcome happens: an invalid stored lock, a colliding rename, removed keys (which ones, in order), a chain left without a key, or the assigned lock with its canonical text and whether it changed |
| `IdLock.RunSafe` | tools/map_pipeline/ids.py:107-155 | a successful run keeps every id, renumbers nothing, grows lineages, keeps ids unique, and new ids exceed every id locked before |
| `IdLock.HistoryCarries` | tools/map_pipeline/ids.py:85-155 | over any history of runs locked ids never shrink and every lineage only grows |
| `IdLock.HistoryFresh` | tools/map_pipeline/ids.py:144-152 | an id handed out in any run exceeds every id ever locked before it, retired ones included |
| `IdLock.HistoryLineage` | tools/map_pipeline/ids.py:40-155 | whatever key holds an id later has the earlier holder, and its lineage, in its own lineage: no id passes to another node |
| `IdLock.OrphansExact` | tools/map_pipeline/ids.py:53-82 | the chains whose key holds no id after some renames are exactly those of targets that held none when a rename led to them, without an id moved there then or later |
| `IdLock.RenameToNowhere` | tools/map_pipeline/ids.py:27-37 | a concrete such rename: no run can write its lock |
| `IdLock.SourceNoted` | tools/map_pipeline/ids.py:53-82 | after a run whose lock loads, every rename source is recorded and holds no id |
| `IdLock.CanonicalLock` | tools/map_pipeline/ids.py:27-37 | the text lists ids and chains in id order |
| `IdLock.CanonicalUnique` | tools/map_pipeline/ids.py:27-37 | a lock has one canonical text |
| `IdLock.CanonicalFaithful` | tools/map_pipeline/ids.py:27-37 | a canonical text determines the lock |
| `IdLock.RerunIdle` | tools/map_pipeline/ids.py:107-155 | a rerun on its own valid output with the same inputs assigns nothing exactly when every rename target holds an id |
| `IdLock.RerunResult` | tools/map_pipeline/ids.py:85-155 | such a rerun gives the same lock and identical text |
| `IdLock.FormerExact` | tools/map_pipeline/ids.py:40-82 | after any renames the recorded keys are exactly the former ones: recorded before, sources, and keys an id was moved away from |
| `IdLock.RunLoads` | tools/map_pipeline/models.py:320-351 | for any run whose rename targets hold an id afterwards, as current keys do: the lock written passes the validators exactly when no current key and no target is a former key |
| `IdLock.RepeatsExact` | tools/map_pipeline/ids.py:73-82 | renames to distinct keys repeat nothing in any chain exactly when none moves an id away from a key its node had given up before |
| `IdLock.DistinctRunLoads` | tools/map_pipeline/models.py:320-351 | for any run whose rename targets differ, current or not: the lock written passes the validators exactly when no key that is current or holds an id after the renames is a former key, and no rename moves an id away from a key its node had given up before |
| `IdLock.SeparateRenames` | tools/map_pipeline/ids.py:53-82 | renames that do not get in each other's way collide only where the stored lock holds both keys, and each moves the id the stored lock says |
| `IdLock.SeparateRunLoads` | tools/map_pipeline/models.py:320-351 | for such renames the condition can be read off the stored lock: no current key and no target is recorded there, a source, or the holder of one |
| `IdLock.OneRenameLoads` | tools/map_pipeline/models.py:320-351 | the same for any single rename, its target current or not |
| `IdLock.TargetsIdle` | tools/map_pipeline/ids.py:107-155 | a run whose targets are current keys and whose lock loads again is idle when run again |
| `IdLock.RenameBackRejected` | tools/map_pipeline/models.py:332-351 | a concrete rename back to a former key: the run succeeds and the next load refuses its lock |
| `IdLock.RenameBackKnown` | tools/map_pipeline/ids.py:94-100 | that run is as the command documents, and its target is recorded in the lock it starts from, which is the condition above failing |
| `IdLock.RenameViaRejected` | tools/map_pipeline/models.py:342-345 | a concrete run over two renames that passes through a former key: no key in use is former, yet its lock repeats a key in a chain and is refused |
| `PathText.NothingStripped` | tools/map_pipeline/svgpath.py:30-37 | the decimal text of a number of hundredths has no trailing zero, bare point or negative zero to strip |
| `PathText.NumberRound` | tools/map_pipeline/svgpath.py:30-37 | a printed number has the form the reader accepts, reads back as the grid coordinate, and that is within half a hundredth |
| `PathText.SignedArea` | tools/map_pipeline/svgpath.py:64-71 | the loop computes half the sum of cross products around the closed ring |
| `PathText.UnitTriangle` | tools/map_pipeline/svgpath.py:64-71 | counter-clockwise is positive: a concrete triangle |
| `PathText.FlipAt` | tools/map_pipeline/svgpath.py:58 | a reversed ring starts at the same vertex and goes through the others backwards |
| `PathText.FlipNegates` | tools/map_pipeline/svgpath.py:58 | reversing a ring negates its shoelace sum |
| `PathText.OrientTold` | tools/map_pipeline/svgpath.py:57-60 | orienting gives the exterior positive area unless it has none, leaves no hole with positive area, and keeps ring sizes and the grid |
| `PathText.OrientWalks` | tools/map_pipeline/svgpath.py:57-60 | orienting is the one way to leave every ring that goes the right way round and to walk any other from its first vertex backwards |
| `PathText.Dumps` | tools/map_pipeline/svgpath.py:54-61 | the text is each part's exterior, then its holes, part after part, every ring as it is if it goes the right way round, else backwards from its first vertex; read again, grid parts with three points in every ring and some area in every exterior are just that |
| `PathText.SplitSpaced` | tools/map_pipeline/svgpath.py:86 | splitting the printed numbers at white space gives the numbers |
| `PathText.RingMatches` | tools/map_pipeline/svgpath.py:82-90 | wherever a printed ring stands, the pattern matches all of it and its own numbers, whatever follows |
| `PathText.RingsRound` | tools/map_pipeline/svgpath.py:80-92 | reading printed rings of three points or more gives their grid images, in order |
| `PathText.RingsLong` | tools/map_pipeline/svgpath.py:87-88 | every ring read has at least three points |
| `PathText.PiecesRead` | tools/map_pipeline/svgpath.py:82-92 | a text of rings, each after white space at most, is read ring by ring |
| `PathText.RingsExact` | tools/map_pipeline/svgpath.py:82-92 | every other text is refused: junk between rings, anything after the last, fewer than six numbers or an odd count |
| `PathText.ParsedExact` | tools/map_pipeline/svgpath.py:74-102 | a text parses exactly when it is such a text and its first ring, if any, has positive area |
| `PathText.GroupSound` | tools/map_pipeline/svgpath.py:94-101 | grouping never invents, loses or moves a ring, and gives exteriors positive area and holes none |
| `PathText.GroupComplete` | tools/map_pipeline/svgpath.py:94-101 | the rings of any such parts are grouped back into those parts |
| `PathText.ParsePath` | tools/map_pipeline/svgpath.py:74-102 | the two loops compute the parsed parts, or fail where the program raises an error |
| `PathText.ParseInvertsPrint` | tools/map_pipeline/svgpath.py:74-102 | for any parts, reading the printed text gives the parts on the grid exactly when all rings have three points and, on the grid, exteriors have positive area and holes do not |
| `PathText.DumpsRoundTrip` | tools/map_pipeline/svgpath.py:54-102 | for parts on the grid, reading what is dumped gives the oriented parts, in order, each hole on its own part, exactly when all rings have three points and no exterior is flat |
| `PathText.FlatExterior` | tools/map_pipeline/svgpath.py:94-101 | a concrete flat exterior is written and cannot be read back |
| `PathText.CanonicalText` | tools/map_pipeline/svgpath.py:54-61 | readable part lists have the same text exactly when they agree on the grid |
| `PanelLinks.PanelLinkStore.Issue` | backend/src/core/admin/panel_access.py:58-89 | purges, drops the player's oldest pending links above the cap, makes room, then stores the link; the whole new store |
| `PanelLinks.PanelLinkStore.Redeem` | backend/src/core/admin/panel_access.py:91-108 | the whole new store, and the owner exactly when the key is present, unspent and not expired |
| `PanelLinks.IssueBounds` | backend/src/core/admin/panel_access.py:73-88 | after an issue the store holds at most 1000 entries and at most the cap of pending links for that player |
| `PanelLinks.OldestFirst` | backend/src/core/admin/panel_access.py:74-80 | a pending link survives the player's cap exactly when fewer than the cap less one are newer |
| `PanelLinks.StepMembers` | backend/src/core/admin/panel_access.py:58-115 | any call adds one entry at most and marks one at most, and keys stay unique |
| `PanelLinks.AlwaysSound` | backend/src/core/admin/panel_access.py:58-115 | in every run with fresh tokens, every entry is as it was issued, a redeemed key stays spent, and every redeemed key was issued before |
| `PanelLinks.SingleUse` | backend/src/core/admin/panel_access.py:58-115 | a successful redeem is for the player of the issue, strictly before the expiry set then, and the only successful one of its key in the whole run |
| `PanelLinks.LinkHonoured` | backend/src/core/admin/panel_access.py:58-115 | with a clock that never goes back, a link not yet redeemed, expired or crowded out opens for its player |

## Left out

- Polygon work (buffers, unions, coverage simplification, distances, areas, rasterising), Gaussian and Douglas-Peucker
  smoothing, connected-component labelling of masks and distance transforms: given functions, with only what is used of them
  required. Component labelling is required to give the connected components of the working water.
- Floating point: every coordinate, length, position, distance and clock reading is an exact real. Tolerances of the code
  stay in it where they decide a branch.
- Ladder, Smoothing: node guards, validity, signatures, probes and offending pairs may be any functions of the levels of the
  arcs concerned; reason strings, reports and statistics are not carried, nor is the rebuilding of geometries from levels.
- Ladder.Validate: leaving by the round cap promises nothing about the nodes, as in the code.
- Ring runs of the smoother itself: its own cutting of rings may snap two boundaries to one vertex from opposite sides and
  misorder their labels; label faithfulness is claimed only for the prototype's cutting.
- Pairing.MatchPairs: node keys are stood for by their rank, an integer; junction groups and midpoint distances are given
  functions of the runs, the distance the same both ways.
- Pairing.BuildChains: solo ladders, and anchors are not modelled; the smoothed midline of a pair is a given function.
- RingTiling.LabelSample: the loop over neighbours is modelled for one sample at a time; the margins of 1e-12 add up over
  neighbours, so the nearest neighbour wins only up to that sum.
- RingTiling.SlicesMeet: close points may be dropped afterwards, so printed slices may end up to 1e-9 short of each other.
- The bookkeeping of `label_all`, midlines, resampling and junction groups of the prototype; the junction groups are the
  union-find of `Forest` again.
- Stroke: the largest red component is given as a non-empty set of pixels; the double search does not give a diameter of
  a general mask, so none is claimed.
- Graph: land edges by shared boundary are part of the given automatic table; areas, names and labels of nodes, error texts
  and codes, and the information lines are not carried.
- Manifest.ValidateManifest: label and name fields of nodes are left out; they need single checks each. Ids stand for the text ids of the path table.
- Clusters: `transfer` and `split` patches cut polygons by lines and need geometry not modelled here; patches are applied
  one at a time.
- Parents of union-find are maps on indices where the code uses lists; masks are sets of pixels where the code uses
  boolean arrays.
- IdLock.AssignIds: the file is a given text with its parsed lock. Key patterns are not checked.
- IdLock.RunLoads: asks every rename target to hold an id afterwards, as the command documents (targets are current keys);
  `IdLock.DistinctRunLoads` drops that for targets that differ, as tools/map_pipeline/models.py:467-477 demands. A target that
  is named twice and holds no id afterwards is outside both.
- PathText.Dumps: parts come in the order the pipeline sorted them; polygons of fewer points than a ring needs are not
  excluded.
- PathText.ParsePath: digits and white space are the ASCII ones, and error texts are not carried.
- PanelLinks.PanelLinkStore.Issue: the token's randomness and its hash are parameters; freshness is required of a run, not
  proved. A player's cap below one keeps just the new link.
- Command lines, file and YAML handling, previews, calibration, relief, diagnostics, database migrations and the frontend.
