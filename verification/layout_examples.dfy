/**
 Worked layouts on small patches that tell the layout revisions apart: three
 leaves feeding one node (where the revision as written stacks two siblings on
 the same spot), and one leaf feeding both inputs of a node (where the older
 revision, having no consumed set, lays the leaf out twice).

 The walks are proved for any patch with the listed facts, so that the solver
 never evaluates the layout on a literal patch; a last lemma per example shows
 the literal patch has those facts.
 */
module LayoutExamples {
  import opened Geometry
  import opened Ports
  import opened Wires
  import opened Nodes
  import opened Patches
  import opened PatchLayout

  const Leaf: Node := MakeNodeNamed("leaf", outputs := ["out"])
  const Sum: Node := MakeNodeNamed("sum", inputs := ["a", "b", "c"])
  const Pair: Node := MakeNodeNamed("pair", inputs := ["a", "b"])

  /** Default constants with 40 between nodes. */
  const Spaced: LayoutConstants := DefaultLayout(40.0)

  const Low: Point := Point(-240.0, 0.0)
  const High: Point := Point(-240.0, 80.0)
  const Deep: Point := Point(-240.0, 160.0)

  /** Node heights under the default constants: 50 plus 30 per port row. */
  lemma ExampleHeights()
    ensures NodeHeight(Leaf, Spaced) == 80.0 && NodeHeight(Pair, Spaced) == 110.0 && NodeHeight(Sum, Spaced) == 140.0
  {
    assert PortRows(Leaf) == 1 && PortRows(Pair) == 2 && PortRows(Sum) == 3;
  }

  // ---- Steps every walk is made of ----

  /** If every listed wire ends at `n`, all of them are `n`'s incoming wires. */
  lemma {:induction false} IntoAll(order: seq<Wire>, n: NodeIndex)
    requires forall k :: 0 <= k < |order| ==> order[k].input.nodeIndex == n
    ensures Into(order, n) == order
  {
    if order != [] {
      IntoAll(order[1..], n);
      assert order == [order[0]] + order[1..];
    }
  }

  /** If no listed wire ends at `n`, `n` has no incoming wires. */
  lemma {:induction false} IntoNone(order: seq<Wire>, n: NodeIndex)
    requires forall k :: 0 <= k < |order| ==> order[k].input.nodeIndex != n
    ensures Into(order, n) == []
  {
    if order != [] {
      IntoNone(order[1..], n);
    }
  }

  /** A node nothing feeds is placed alone, and its height is its own plus padding. */
  lemma LeafLayout(rules: Rules, patch: Patch, order: seq<Wire>, n: NodeIndex, point: Point,
                   layout: LayoutConstants, consumed: set<NodeIndex>, padding: bool, rank: seq<nat>)
    requires n < |patch.nodes| && Ranked(patch, rank, n) && Listed(patch, order)
    requires Into(order, n) == []
    ensures Layout(rules, patch, order, n, point, layout, consumed, padding, rank)
         == Placement(map[n := point], Max(0.0, NodeHeight(patch.nodes[n], layout)) + Padding(rules, padding, layout),
                      consumed)
  {
    assert Upstream(rules, patch, order, n, point, layout, [], 0, consumed, 0.0, rank) == Placement(map[], 0.0, consumed);
    assert map[n := point] + map[] == map[n := point];
  }

  /**
   One turn of the loop over a root's wires whose feeder has no wires of its
   own and is not skipped: the feeder goes to the next free point `at`, and the
   loop carries on with it consumed and the height updated.
   */
  lemma LeafStep(rules: Rules, patch: Patch, order: seq<Wire>, root: NodeIndex, point: Point, layout: LayoutConstants,
                 incoming: seq<Wire>, i: nat, consumed: set<NodeIndex>, height: real, rank: seq<nat>,
                 at: Point, next: set<NodeIndex>, nextHeight: real)
    requires LoopInputs(patch, order, root, incoming, i, rank) && i < |incoming|
    requires Into(order, incoming[i].output.nodeIndex) == []
    requires !(rules.skipConsumed && incoming[i].output.nodeIndex in consumed)
    requires at == UpstreamPoint(point, layout, height)
    requires next == consumed + {incoming[i].output.nodeIndex}
    requires var h := Max(0.0, NodeHeight(patch.nodes[incoming[i].output.nodeIndex], layout))
                      + Padding(rules, i == |incoming| - 1, layout);
             nextHeight == if rules.runningSum then height + h else h
    ensures var rest := Upstream(rules, patch, order, root, point, layout, incoming, i + 1, next, nextHeight, rank);
            Upstream(rules, patch, order, root, point, layout, incoming, i, consumed, height, rank)
            == Placement(map[incoming[i].output.nodeIndex := at] + rest.moves, rest.height, rest.consumed)
  {
    var ni := incoming[i].output.nodeIndex;
    LeafLayout(rules, patch, order, ni, at, layout, consumed, i == |incoming| - 1, rank);
  }

  /** The outcome of `RecursiveLayout` read off the walk over the sorted wires. */
  lemma OutcomeFromWalk(patch: Patch, order: seq<Wire>, n: NodeIndex, point: Point, layout: LayoutConstants,
                        consumed: set<NodeIndex>, padding: bool, rank: seq<nat>, walk: Placement)
    requires n < |patch.nodes| && Ranked(patch, rank, n)
    requires SortedWires(patch.wires) == order
    requires Layout(Current, patch, order, n, point, layout, consumed, padding, rank) == walk
    ensures var r := RecursiveLayout(patch, n, point, layout, consumed, padding, rank);
            && r.aggregateHeight == walk.height
            && r.consumed == walk.consumed
            && forall j :: 0 <= j < |patch.nodes| && j in walk.moves ==> r.patch.nodes[j].position == walk.moves[j]
  {
  }

  /** The same for the corrected layout. */
  lemma CorrectedOutcomeFromWalk(patch: Patch, order: seq<Wire>, n: NodeIndex, point: Point,
                                 layout: LayoutConstants, consumed: set<NodeIndex>, padding: bool, rank: seq<nat>, walk: Placement)
    requires n < |patch.nodes| && Ranked(patch, rank, n)
    requires SortedWires(patch.wires) == order
    requires Layout(Corrected, patch, order, n, point, layout, consumed, padding, rank) == walk
    ensures var r := CorrectedRecursiveLayout(patch, n, point, layout, consumed, padding, rank);
            && r.aggregateHeight == walk.height
            && r.consumed == walk.consumed
            && forall j :: 0 <= j < |patch.nodes| && j in walk.moves ==> r.patch.nodes[j].position == walk.moves[j]
  {
  }

  /** The same for the older layout. */
  lemma LegacyOutcomeFromWalk(patch: Patch, order: seq<Wire>, n: NodeIndex, point: Point,
                              layout: LayoutConstants, padding: bool, rank: seq<nat>, walk: Placement)
    requires n < |patch.nodes| && Ranked(patch, rank, n)
    requires SortedWires(patch.wires) == order
    requires Layout(Legacy, patch, order, n, point, layout, {}, padding, rank) == walk
    ensures var r := LegacyRecursiveLayout(patch, n, point, layout, padding, rank);
            && r.1 == walk.height
            && forall j :: 0 <= j < |patch.nodes| && j in walk.moves ==> r.0.nodes[j].position == walk.moves[j]
  {
  }

  // ---- Three leaves feeding one node ----

  const W0: Wire := Wire(OutputID(0, 0), InputID(3, 0))
  const W1: Wire := Wire(OutputID(1, 0), InputID(3, 1))
  const W2: Wire := Wire(OutputID(2, 0), InputID(3, 2))

  /** Leaves 0, 1 and 2 feed inputs 0, 1 and 2 of node 3. */
  function ThreeFeeders(): Patch {
    Patch([Leaf, Leaf, Leaf, Sum], {W0, W1, W2})
  }

  const ThreeRank: seq<nat> := [0, 0, 0, 1]

  /** The three wires in `WireLeq` order. */
  lemma ThreeFeedersOrder()
    ensures SortedWires(ThreeFeeders().wires) == [W0, W1, W2]
  {
    var list := [W0, W1, W2];
    assert WireLeq(W0, W1) && WireLeq(W1, W2) && WireLeq(W0, W2);
    forall j, k | 0 <= j < k < |list|
      ensures WireLeq(list[j], list[k]) && list[j] != list[k]
    {
      if j == 0 && k == 1 {
      } else if j == 0 {
        assert k == 2;
      } else {
        assert j == 1 && k == 2;
      }
    }
    forall w
      ensures w in list <==> w in ThreeFeeders().wires
    {
      assert w in list <==> w == W0 || w == W1 || w == W2;
    }
    SortedWiresIs(ThreeFeeders().wires, list);
  }

  /**
   What the walks over a three-feeder patch use: with the wires in order,
   wire `k` runs from leaf `k` to node 3, leaves are 80 high and node 3 is 140.
   */
  ghost predicate ThreeFeederFacts(p: Patch, order: seq<Wire>, rank: seq<nat>) {
    && Ranked(p, rank, 3) && Listed(p, order) && |p.nodes| == 4
    && |order| == 3
    && order[0].output.nodeIndex == 0 && order[1].output.nodeIndex == 1 && order[2].output.nodeIndex == 2
    && Into(order, 0) == [] && Into(order, 1) == [] && Into(order, 2) == [] && Into(order, 3) == order
    && LoopInputs(p, order, 3, order, 0, rank)
    && NodeHeight(p.nodes[0], Spaced) == 80.0 && NodeHeight(p.nodes[1], Spaced) == 80.0
    && NodeHeight(p.nodes[2], Spaced) == 80.0 && NodeHeight(p.nodes[3], Spaced) == 140.0
  }

  /** The literal patch has the facts. */
  lemma ThreeFeederFactsHold()
    ensures ThreeFeederFacts(ThreeFeeders(), [W0, W1, W2], ThreeRank)
  {
    var p := ThreeFeeders();
    var order := [W0, W1, W2];
    assert Ranked(p, ThreeRank, 3) && Listed(p, order) && LoopInputs(p, order, 3, order, 0, ThreeRank) by {
      assert forall w :: w in p.wires ==> w == W0 || w == W1 || w == W2;
    }
    assert Into(order, 3) == order by {
      IntoAll(order, 3);
    }
    assert Into(order, 0) == [] && Into(order, 1) == [] && Into(order, 2) == [] by {
      IntoNone(order, 0);
      IntoNone(order, 1);
      IntoNone(order, 2);
    }
    ExampleHeights();
  }

  /** The walk over node 3's wires as written, from its third wire. */
  lemma ThreeFeedersWalk2(p: Patch, order: seq<Wire>, rank: seq<nat>)
    requires ThreeFeederFacts(p, order, rank)
    ensures var u := Upstream(Current, p, order, 3, Origin, Spaced, order, 2, {0, 1}, 80.0, rank);
            && u.height == 120.0
            && 0 !in u.moves && 1 !in u.moves
            && 2 in u.moves && u.moves[2] == High
  {
    LeafStep(Current, p, order, 3, Origin, Spaced, order, 2, {0, 1}, 80.0, rank, High, {0, 1, 2}, 120.0);
    assert Upstream(Current, p, order, 3, Origin, Spaced, order, 3, {0, 1, 2}, 120.0, rank)
        == Placement(map[], 120.0, {0, 1, 2});
  }

  /** From the second wire: the second feeder goes where the third will. */
  lemma ThreeFeedersWalk1(p: Patch, order: seq<Wire>, rank: seq<nat>)
    requires ThreeFeederFacts(p, order, rank)
    ensures var u := Upstream(Current, p, order, 3, Origin, Spaced, order, 1, {0}, 80.0, rank);
            && u.height == 120.0
            && 0 !in u.moves
            && 1 in u.moves && u.moves[1] == High
            && 2 in u.moves && u.moves[2] == High
  {
    LeafStep(Current, p, order, 3, Origin, Spaced, order, 1, {0}, 80.0, rank, High, {0, 1}, 80.0);
    ThreeFeedersWalk2(p, order, rank);
  }

  /** The walk from the first wire: each feeder lands one subtree height below the root, not below all earlier ones. */
  lemma ThreeFeedersWalk(p: Patch, order: seq<Wire>, rank: seq<nat>)
    requires ThreeFeederFacts(p, order, rank)
    ensures var u := Upstream(Current, p, order, 3, Origin, Spaced, order, 0, {}, 0.0, rank);
            && u.height == 120.0
            && 0 in u.moves && u.moves[0] == Low
            && 1 in u.moves && u.moves[1] == High
            && 2 in u.moves && u.moves[2] == High
  {
    LeafStep(Current, p, order, 3, Origin, Spaced, order, 0, {}, 0.0, rank, Low, {0}, 80.0);
    ThreeFeedersWalk1(p, order, rank);
  }

  /**
   As written, the second and third feeders are placed at the same point, and
   the third lies below the aggregate height the layout returns.
   */
  lemma ThreeFeedersOverlap(p: Patch, order: seq<Wire>, rank: seq<nat>)
    requires ThreeFeederFacts(p, order, rank)
    requires SortedWires(p.wires) == order
    ensures var r := RecursiveLayout(p, 3, Origin, Spaced, {}, false, rank);
            && r.patch.nodes[1].position == r.patch.nodes[2].position == High
            && r.patch.nodes[2].position.y + NodeHeight(p.nodes[2], Spaced) > r.aggregateHeight
  {
    var w := Layout(Current, p, order, 3, Origin, Spaced, {}, false, rank);
    assert w.height == 140.0 && 1 in w.moves && w.moves[1] == High && 2 in w.moves && w.moves[2] == High by {
      ThreeFeedersWalk(p, order, rank);
    }
    OutcomeFromWalk(p, order, 3, Origin, Spaced, {}, false, rank, w);
  }

  /** The corrected walk from the third wire: below the first two feeders' 160. */
  lemma CorrectedWalk2(p: Patch, order: seq<Wire>, rank: seq<nat>)
    requires ThreeFeederFacts(p, order, rank)
    ensures var u := Upstream(Corrected, p, order, 3, Origin, Spaced, order, 2, {0, 1}, 160.0, rank);
            && u.height == 280.0
            && 0 !in u.moves && 1 !in u.moves
            && 2 in u.moves && u.moves[2] == Deep
  {
    LeafStep(Corrected, p, order, 3, Origin, Spaced, order, 2, {0, 1}, 160.0, rank, Deep, {0, 1, 2}, 280.0);
    assert Upstream(Corrected, p, order, 3, Origin, Spaced, order, 3, {0, 1, 2}, 280.0, rank)
        == Placement(map[], 280.0, {0, 1, 2});
  }

  lemma CorrectedWalk1(p: Patch, order: seq<Wire>, rank: seq<nat>)
    requires ThreeFeederFacts(p, order, rank)
    ensures var u := Upstream(Corrected, p, order, 3, Origin, Spaced, order, 1, {0}, 80.0, rank);
            && u.height == 280.0
            && 0 !in u.moves
            && 1 in u.moves && u.moves[1] == High
            && 2 in u.moves && u.moves[2] == Deep
  {
    LeafStep(Corrected, p, order, 3, Origin, Spaced, order, 1, {0}, 80.0, rank, High, {0, 1}, 160.0);
    CorrectedWalk2(p, order, rank);
  }

  lemma CorrectedWalk(p: Patch, order: seq<Wire>, rank: seq<nat>)
    requires ThreeFeederFacts(p, order, rank)
    ensures var u := Upstream(Corrected, p, order, 3, Origin, Spaced, order, 0, {}, 0.0, rank);
            && u.height == 280.0
            && 0 in u.moves && u.moves[0] == Low
            && 1 in u.moves && u.moves[1] == High
            && 2 in u.moves && u.moves[2] == Deep
  {
    LeafStep(Corrected, p, order, 3, Origin, Spaced, order, 0, {}, 0.0, rank, Low, {0}, 80.0);
    CorrectedWalk1(p, order, rank);
  }

  /** With the heights summed, the three feeders are stacked 80 apart and the height covers all of them. */
  lemma ThreeFeedersCorrected(p: Patch, order: seq<Wire>, rank: seq<nat>)
    requires ThreeFeederFacts(p, order, rank)
    requires SortedWires(p.wires) == order
    ensures var r := CorrectedRecursiveLayout(p, 3, Origin, Spaced, {}, false, rank);
            && r.patch.nodes[0].position == Low
            && r.patch.nodes[1].position == High
            && r.patch.nodes[2].position == Deep
            && r.aggregateHeight == 280.0
  {
    var w := Layout(Corrected, p, order, 3, Origin, Spaced, {}, false, rank);
    assert && w.height == 280.0 && 0 in w.moves && w.moves[0] == Low
           && 1 in w.moves && w.moves[1] == High && 2 in w.moves && w.moves[2] == Deep by {
      CorrectedWalk(p, order, rank);
    }
    CorrectedOutcomeFromWalk(p, order, 3, Origin, Spaced, {}, false, rank, w);
  }

  // ---- One leaf feeding both inputs of a node ----

  const V0: Wire := Wire(OutputID(0, 0), InputID(1, 0))
  const V1: Wire := Wire(OutputID(0, 0), InputID(1, 1))

  /** Leaf 0 feeds both inputs of node 1. */
  function SharedFeeder(): Patch {
    Patch([Leaf, Pair], {V0, V1})
  }

  const SharedRank: seq<nat> := [0, 1]

  lemma SharedFeederOrder()
    ensures SortedWires(SharedFeeder().wires) == [V0, V1]
  {
    var list := [V0, V1];
    assert WireLeq(V0, V1) && V0 != V1;
    forall w
      ensures w in list <==> w in SharedFeeder().wires
    {
      assert w in list <==> w == V0 || w == V1;
    }
    SortedWiresIs(SharedFeeder().wires, list);
  }

  /** What the walks over a shared-feeder patch use. */
  ghost predicate SharedFeederFacts(p: Patch, order: seq<Wire>, rank: seq<nat>) {
    && Ranked(p, rank, 1) && Listed(p, order) && |p.nodes| == 2
    && |order| == 2
    && order[0].output.nodeIndex == 0 && order[1].output.nodeIndex == 0
    && Into(order, 0) == [] && Into(order, 1) == order
    && LoopInputs(p, order, 1, order, 0, rank)
    && NodeHeight(p.nodes[0], Spaced) == 80.0 && NodeHeight(p.nodes[1], Spaced) == 110.0
  }

  lemma SharedFeederFactsHold()
    ensures SharedFeederFacts(SharedFeeder(), [V0, V1], SharedRank)
  {
    var p := SharedFeeder();
    var order := [V0, V1];
    assert Ranked(p, SharedRank, 1) && Listed(p, order) && LoopInputs(p, order, 1, order, 0, SharedRank) by {
      assert forall w :: w in p.wires ==> w == V0 || w == V1;
    }
    assert Into(order, 1) == order by {
      IntoAll(order, 1);
    }
    assert Into(order, 0) == [] by {
      IntoNone(order, 0);
    }
    ExampleHeights();
  }

  /** As written, the second wire's feeder is already consumed and is skipped. */
  lemma SharedCurrentWalk(p: Patch, order: seq<Wire>, rank: seq<nat>)
    requires SharedFeederFacts(p, order, rank)
    ensures var u := Upstream(Current, p, order, 1, Origin, Spaced, order, 0, {}, 0.0, rank);
            u.height == 80.0 && 0 in u.moves && u.moves[0] == Low
  {
    LeafStep(Current, p, order, 1, Origin, Spaced, order, 0, {}, 0.0, rank, Low, {0}, 80.0);
    assert Upstream(Current, p, order, 1, Origin, Spaced, order, 1, {0}, 80.0, rank)
        == Upstream(Current, p, order, 1, Origin, Spaced, order, 2, {0}, 80.0, rank)
        == Placement(map[], 80.0, {0});
  }

  /** The older revision lays the shared feeder out once per wire; the second placement is the one that stays. */
  lemma SharedLegacyWalk(p: Patch, order: seq<Wire>, rank: seq<nat>)
    requires SharedFeederFacts(p, order, rank)
    ensures var u := Upstream(Legacy, p, order, 1, Origin, Spaced, order, 0, {}, 0.0, rank);
            u.height == 80.0 && 0 in u.moves && u.moves[0] == Point(-240.0, 120.0)
  {
    var second := Point(-240.0, 120.0);
    LeafStep(Legacy, p, order, 1, Origin, Spaced, order, 1, {0}, 120.0, rank, second, {0}, 80.0);
    assert Upstream(Legacy, p, order, 1, Origin, Spaced, order, 2, {0}, 80.0, rank) == Placement(map[], 80.0, {0});
    LeafStep(Legacy, p, order, 1, Origin, Spaced, order, 0, {}, 0.0, rank, Low, {0}, 120.0);
  }

  /** As written, the shared feeder stays where the first wire put it, level with the root. */
  lemma SharedCurrentOutcome(p: Patch, order: seq<Wire>, rank: seq<nat>)
    requires SharedFeederFacts(p, order, rank)
    requires SortedWires(p.wires) == order
    ensures var r := RecursiveLayout(p, 1, Origin, Spaced, {}, false, rank);
            r.patch.nodes[0].position == Low && r.aggregateHeight == 110.0
  {
    var w := Layout(Current, p, order, 1, Origin, Spaced, {}, false, rank);
    assert w.height == 110.0 && 0 in w.moves && w.moves[0] == Low by {
      SharedCurrentWalk(p, order, rank);
    }
    OutcomeFromWalk(p, order, 1, Origin, Spaced, {}, false, rank, w);
  }

  /** The older revision moves the shared feeder again for the second wire, and pads the other way. */
  lemma SharedLegacyOutcome(p: Patch, order: seq<Wire>, rank: seq<nat>)
    requires SharedFeederFacts(p, order, rank)
    requires SortedWires(p.wires) == order
    ensures var r := LegacyRecursiveLayout(p, 1, Origin, Spaced, false, rank);
            r.0.nodes[0].position == Point(-240.0, 120.0) && r.1 == 150.0
  {
    var w := Layout(Legacy, p, order, 1, Origin, Spaced, {}, false, rank);
    assert w.height == 150.0 && 0 in w.moves && w.moves[0] == Point(-240.0, 120.0) by {
      SharedLegacyWalk(p, order, rank);
    }
    LegacyOutcomeFromWalk(p, order, 1, Origin, Spaced, false, rank, w);
  }

  /**
   The revisions disagree on the literal shared-feeder patch: the feeder ends
   level with the root in one and 120 lower in the other.
   */
  lemma SharedFeederRevisionsDiffer()
    ensures Ranked(SharedFeeder(), SharedRank, 1)
    ensures RecursiveLayout(SharedFeeder(), 1, Origin, Spaced, {}, false, SharedRank).patch.nodes[0].position
         != LegacyRecursiveLayout(SharedFeeder(), 1, Origin, Spaced, false, SharedRank).0.nodes[0].position
  {
    SharedFeederFactsHold();
    SharedFeederOrder();
    SharedCurrentOutcome(SharedFeeder(), [V0, V1], SharedRank);
    SharedLegacyOutcome(SharedFeeder(), [V0, V1], SharedRank);
  }

  // ---- A cycle away from the root ----

  const Loop: Node := MakeNodeNamed("loop", inputs := ["in"], outputs := ["out"])

  /** Nodes 1 and 2 feed each other; node 0 has no wires. */
  function CycleAside(): Patch {
    Patch([Leaf, Loop, Loop], {Wire(OutputID(1, 0), InputID(2, 0)), Wire(OutputID(2, 0), InputID(1, 0))})
  }

  /** A root fed by nothing is placed alone, with its own height, whatever the other wires do. */
  lemma UnfedRoot(p: Patch, n: NodeIndex, rank: seq<nat>)
    requires n < |p.nodes| && Ranked(p, rank, n)
    requires forall w :: w in p.wires ==> w.input.nodeIndex != n
    ensures var r := RecursiveLayout(p, n, Origin, Spaced, {}, false, rank);
            r.patch.nodes[n].position == Origin && r.aggregateHeight == Max(0.0, NodeHeight(p.nodes[n], Spaced))
  {
    var order := SortedWires(p.wires);
    IntoNone(order, n);
    assert Steps(Current, p, order, n, Origin, Spaced, [], 0, {}, 0.0, rank) == [];
  }

  /** The literal patch is ranked into its root, although nodes 1 and 2 form a cycle. */
  lemma CycleAsideRanked()
    ensures Ranked(CycleAside(), [0, 1, 1], 0)
    ensures forall w :: w in CycleAside().wires ==> w.input.nodeIndex != 0
    ensures NodeHeight(CycleAside().nodes[0], Spaced) == 80.0
  {
    var p := CycleAside();
    assert forall w :: w in p.wires ==> w.input.nodeIndex != 0;
    ExampleHeights();
  }

  /**
   A cycle outside the root's upstream part does not keep the layout from the
   root from being defined: the rank need only decrease into the root.
   */
  lemma CycleAsideLayout()
    ensures Ranked(CycleAside(), [0, 1, 1], 0)
    ensures var r := RecursiveLayout(CycleAside(), 0, Origin, Spaced, {}, false, [0, 1, 1]);
            r.patch.nodes[0].position == Origin && r.aggregateHeight == 80.0
  {
    CycleAsideRanked();
    UnfedRoot(CycleAside(), 0, [0, 1, 1]);
  }

  /**
   The overlap on the literal three-feeder patch: the second and third leaves
   share a spot as written, and sit 80 apart when the heights are summed.
   */
  lemma ThreeFeedersFinding()
    ensures Ranked(ThreeFeeders(), ThreeRank, 3)
    ensures var r := RecursiveLayout(ThreeFeeders(), 3, Origin, Spaced, {}, false, ThreeRank);
            r.patch.nodes[1].position == r.patch.nodes[2].position
    ensures var r := CorrectedRecursiveLayout(ThreeFeeders(), 3, Origin, Spaced, {}, false, ThreeRank);
            r.patch.nodes[2].position.y - r.patch.nodes[1].position.y == 80.0
  {
    ThreeFeederFactsHold();
    ThreeFeedersOrder();
    ThreeFeedersOverlap(ThreeFeeders(), [W0, W1, W2], ThreeRank);
    ThreeFeedersCorrected(ThreeFeeders(), [W0, W1, W2], ThreeRank);
  }
}
