/**
 Automatic layout of a patch (Patch+Layout.swift, and the older revision in
 Patch.swift): the recursive layout that places a node's upstream subtree in
 columns to its left, and the manual stacked grid layout.

 Layout only ever assigns node positions, and a node's height depends on its
 port counts alone. So the recursion reads heights and wires from the patch it
 was given and returns the positions it assigns as a map, later assignments
 overriding earlier ones; `Apply` writes them into the patch at the end.

 The two recursive revisions and the corrected one differ in three switches,
 so they share one definition parameterised by `Rules`.
 */
module PatchLayout {
  import opened Geometry
  import opened Ports
  import opened Enumeration
  import opened Wires
  import opened Nodes
  import opened Patches

  /**
   `skipConsumed`: an upstream node already laid out is passed over.
   `padWhen`: the value of the padding flag for which `nodeSpacing` is added.
   `runningSum`: each sibling goes below the total height of the earlier
   siblings, rather than below the previous sibling's height alone.
   */
  datatype Rules = Rules(skipConsumed: bool, padWhen: bool, runningSum: bool)

  /** Patch+Layout.swift as written. */
  const Current: Rules := Rules(true, true, false)
  /** The older revision in Patch.swift: no consumed set, padding inverted. */
  const Legacy: Rules := Rules(false, false, false)
  /** Patch+Layout.swift with the sibling heights summed. */
  const Corrected: Rules := Rules(true, true, true)

  /** The positions assigned, the subtree's aggregate height and the consumed node set. */
  datatype Placement = Placement(moves: map<NodeIndex, Point>, height: real, consumed: set<NodeIndex>)

  /**
   `rank` strictly decreases along every wire into a node ranked no higher
   than `n`, from input end to output end: the part of the graph upstream of
   `n` is acyclic and lies within the node list, which is what the recursion
   from `n` needs to stop. Wires elsewhere are unconstrained: they may form
   cycles or name missing nodes.
   */
  ghost predicate Ranked(patch: Patch, rank: seq<nat>, n: NodeIndex) {
    && |rank| == |patch.nodes|
    && n < |rank|
    && forall w :: w in patch.wires && w.input.nodeIndex < |rank| && rank[w.input.nodeIndex] <= rank[n] ==>
         w.output.nodeIndex < |rank| && rank[w.output.nodeIndex] < rank[w.input.nodeIndex]
  }

  /** Every wire listed in `order` is a wire of the patch. */
  ghost predicate Listed(patch: Patch, order: seq<Wire>) {
    forall k :: 0 <= k < |order| ==> order[k] in patch.wires
  }

  /** Every wire of the patch is listed in `order`. */
  ghost predicate Complete(patch: Patch, order: seq<Wire>) {
    forall w :: w in patch.wires ==> w in order
  }

  /**
   `order` lists the patch's wires, each once, in ascending `WireLeq` order:
   the one enumeration of the wire set the model fixes for a whole layout.
   */
  ghost predicate WireOrder(patch: Patch, order: seq<Wire>) {
    && Listed(patch, order)
    && Complete(patch, order)
    && (forall j, k :: 0 <= j < k < |order| ==> WireLeq(order[j], order[k]) && order[j] != order[k])
  }

  /** The wires of `order` that end at node `n`, in the order given. */
  function Into(order: seq<Wire>, n: NodeIndex): (r: seq<Wire>)
    ensures forall k :: 0 <= k < |r| ==> r[k] in order && r[k].input.nodeIndex == n
    ensures forall w :: w in order && w.input.nodeIndex == n ==> w in r
  {
    if order == [] then []
    else (if order[0].input.nodeIndex == n then [order[0]] else []) + Into(order[1..], n)
  }

  /** Where an upstream node goes: one column to the left, `height` below the root. */
  function UpstreamPoint(point: Point, layout: LayoutConstants, height: real): Point {
    Point(point.x - layout.nodeWidth - layout.nodeSpacing, point.y + height)
  }

  /**
   The loop's height after a sibling laid out at `offset` below the root
   returns `height`: that height alone, or the running total.
   */
  function Next(rules: Rules, offset: real, height: real): real {
    if rules.runningSum then offset + height else height
  }

  /** The spacing added below a subtree, depending on the padding flag. */
  function Padding(rules: Rules, padding: bool, layout: LayoutConstants): real {
    if padding == rules.padWhen then layout.nodeSpacing else 0.0
  }

  /**
   `recursiveLayout`: puts node `n` at `point`, lays out the node feeding each
   incoming wire one column to the left, and returns the assigned positions,
   the subtree's height and the grown consumed set. The height covers node
   `n` itself and its padding.
   */
  function Layout(rules: Rules, patch: Patch, order: seq<Wire>, n: NodeIndex, point: Point,
                  layout: LayoutConstants, consumed: set<NodeIndex>, padding: bool,
                  ghost rank: seq<nat>): (r: Placement)
    requires n < |patch.nodes| && Ranked(patch, rank, n) && Listed(patch, order)
    ensures r.height >= NodeHeight(patch.nodes[n], layout) + Padding(rules, padding, layout)
    decreases rank[n], 1
  {
    var up := Upstream(rules, patch, order, n, point, layout, Into(order, n), 0, consumed, 0.0, rank);
    Placement(map[n := point] + up.moves,
              Max(up.height, NodeHeight(patch.nodes[n], layout)) + Padding(rules, padding, layout),
              up.consumed)
  }

  /** The requirements shared by the loop over incoming wires and its lemmas. */
  ghost predicate LoopInputs(patch: Patch, order: seq<Wire>, root: NodeIndex, incoming: seq<Wire>, i: nat,
                             rank: seq<nat>) {
    && root < |patch.nodes| && Ranked(patch, rank, root) && Listed(patch, order) && i <= |incoming|
    && forall k :: 0 <= k < |incoming| ==> incoming[k] in patch.wires && incoming[k].input.nodeIndex == root
  }

  /** The loop over the incoming wires of `root` from the `i`-th on, with the running height and consumed set. */
  function Upstream(rules: Rules, patch: Patch, order: seq<Wire>, root: NodeIndex, point: Point,
                    layout: LayoutConstants, incoming: seq<Wire>, i: nat, consumed: set<NodeIndex>,
                    height: real, ghost rank: seq<nat>): (r: Placement)
    requires LoopInputs(patch, order, root, incoming, i, rank)
    decreases rank[root], 0, |incoming| - i
  {
    if i == |incoming| then Placement(map[], height, consumed)
    else
      var ni := incoming[i].output.nodeIndex;
      if rules.skipConsumed && ni in consumed then
        Upstream(rules, patch, order, root, point, layout, incoming, i + 1, consumed, height, rank)
      else
        var rl := Layout(rules, patch, order, ni, UpstreamPoint(point, layout, height), layout, consumed,
                         i == |incoming| - 1, rank);
        var rest := Upstream(rules, patch, order, root, point, layout, incoming, i + 1, rl.consumed + {ni},
                             Next(rules, height, rl.height), rank);
        Placement(rl.moves + rest.moves, rest.height, rest.consumed)
  }

  /** Writes assigned positions into the patch. */
  function Apply(patch: Patch, moves: map<NodeIndex, Point>): (r: Patch)
    ensures SameShape(patch, r)
    ensures forall j :: 0 <= j < |patch.nodes| ==>
              r.nodes[j].position == (if j in moves then moves[j] else patch.nodes[j].position)
  {
    Patch(seq(|patch.nodes|, j requires 0 <= j < |patch.nodes| =>
                if j in moves then patch.nodes[j].(position := moves[j]) else patch.nodes[j]),
          patch.wires)
  }

  // ---- What a layout consumes ----

  /**
   The consumed set only grows, by nodes ranked below `n`, and ends up holding
   every node feeding `n`.
   */
  lemma {:induction false} LayoutConsumes(rules: Rules, patch: Patch, order: seq<Wire>, n: NodeIndex,
                                          point: Point, layout: LayoutConstants, consumed: set<NodeIndex>,
                                          padding: bool, rank: seq<nat>)
    requires n < |patch.nodes| && Ranked(patch, rank, n) && Listed(patch, order)
    requires Complete(patch, order)
    ensures var r := Layout(rules, patch, order, n, point, layout, consumed, padding, rank);
            && consumed <= r.consumed
            && (forall j :: j in r.consumed - consumed ==> j < |patch.nodes| && rank[j] < rank[n])
            && (forall w :: w in patch.wires && w.input.nodeIndex == n ==> w.output.nodeIndex in r.consumed)
    decreases rank[n], 1
  {
    var incoming := Into(order, n);
    var up := Upstream(rules, patch, order, n, point, layout, incoming, 0, consumed, 0.0, rank);
    UpstreamConsumes(rules, patch, order, n, point, layout, incoming, 0, consumed, 0.0, rank);
    forall w | w in patch.wires && w.input.nodeIndex == n
      ensures w.output.nodeIndex in up.consumed
    {
      assert w in order;
      var k :| 0 <= k < |incoming| && incoming[k] == w;
    }
  }

  lemma {:induction false} UpstreamConsumes(rules: Rules, patch: Patch, order: seq<Wire>, root: NodeIndex,
                                            point: Point, layout: LayoutConstants, incoming: seq<Wire>, i: nat,
                                            consumed: set<NodeIndex>, height: real, rank: seq<nat>)
    requires LoopInputs(patch, order, root, incoming, i, rank)
    requires Complete(patch, order)
    ensures var r := Upstream(rules, patch, order, root, point, layout, incoming, i, consumed, height, rank);
            && consumed <= r.consumed
            && (forall j :: j in r.consumed - consumed ==> j < |patch.nodes| && rank[j] < rank[root])
            && (forall k :: i <= k < |incoming| ==> incoming[k].output.nodeIndex in r.consumed)
    decreases rank[root], 0, |incoming| - i, 1
  {
    if i < |incoming| {
      var ni := incoming[i].output.nodeIndex;
      if rules.skipConsumed && ni in consumed {
        UpstreamConsumes(rules, patch, order, root, point, layout, incoming, i + 1, consumed, height, rank);
      } else {
        UpstreamConsumesLaidOut(rules, patch, order, root, point, layout, incoming, i, consumed, height, rank);
      }
    }
  }

  /** The step of `UpstreamConsumes` where the node feeding wire `i` is laid out. */
  lemma {:induction false} UpstreamConsumesLaidOut(rules: Rules, patch: Patch, order: seq<Wire>, root: NodeIndex,
                                                   point: Point, layout: LayoutConstants, incoming: seq<Wire>, i: nat,
                                                   consumed: set<NodeIndex>, height: real, rank: seq<nat>)
    requires LoopInputs(patch, order, root, incoming, i, rank)
    requires Complete(patch, order)
    requires i < |incoming| && !(rules.skipConsumed && incoming[i].output.nodeIndex in consumed)
    ensures var r := Upstream(rules, patch, order, root, point, layout, incoming, i, consumed, height, rank);
            && consumed <= r.consumed
            && (forall j :: j in r.consumed - consumed ==> j < |patch.nodes| && rank[j] < rank[root])
            && (forall k :: i <= k < |incoming| ==> incoming[k].output.nodeIndex in r.consumed)
    decreases rank[root], 0, |incoming| - i, 0
  {
    var r := Upstream(rules, patch, order, root, point, layout, incoming, i, consumed, height, rank);
    var ni := incoming[i].output.nodeIndex;
    assert incoming[i] in patch.wires;
    var p := UpstreamPoint(point, layout, height);
    var last := i == |incoming| - 1;
    var rl := Layout(rules, patch, order, ni, p, layout, consumed, last, rank);
    var h := Next(rules, height, rl.height);
    var rest := Upstream(rules, patch, order, root, point, layout, incoming, i + 1, rl.consumed + {ni}, h, rank);
    assert r.consumed == rest.consumed;
    LayoutConsumes(rules, patch, order, ni, p, layout, consumed, last, rank);
    UpstreamConsumes(rules, patch, order, root, point, layout, incoming, i + 1, rl.consumed + {ni}, h, rank);
    ConsumedChain(consumed, rl.consumed, rest.consumed, rank, ni, root);
  }

  /** Growth below `ni`, then `ni` itself, then growth below `root`, is growth below `root` when `ni` ranks below it. */
  lemma ConsumedChain(consumed: set<NodeIndex>, mid: set<NodeIndex>, last: set<NodeIndex>, rank: seq<nat>,
                      ni: NodeIndex, root: NodeIndex)
    requires ni < |rank| && root < |rank| && rank[ni] < rank[root]
    requires consumed <= mid && forall j :: j in mid - consumed ==> j < |rank| && rank[j] < rank[ni]
    requires mid + {ni} <= last && forall j :: j in last - (mid + {ni}) ==> j < |rank| && rank[j] < rank[root]
    ensures consumed <= last
    ensures forall j :: j in last - consumed ==> j < |rank| && rank[j] < rank[root]
  {
    forall j | j in last - consumed
      ensures j < |rank| && rank[j] < rank[root]
    {
      if j == ni {
      } else if j in mid {
        assert j in mid - consumed;
      } else {
        assert j in last - (mid + {ni});
      }
    }
  }

  // ---- What a layout moves ----

  /**
   Node `n` goes to `point`; every other node moved is ranked below `n` and
   consumed; under the consumed-set rules no node that was already consumed
   moves, except `n` itself.
   */
  lemma {:induction false} LayoutMoves(rules: Rules, patch: Patch, order: seq<Wire>, n: NodeIndex,
                                       point: Point, layout: LayoutConstants, consumed: set<NodeIndex>,
                                       padding: bool, rank: seq<nat>)
    requires n < |patch.nodes| && Ranked(patch, rank, n) && Listed(patch, order) && Complete(patch, order)
    ensures var r := Layout(rules, patch, order, n, point, layout, consumed, padding, rank);
            && n in r.moves && r.moves[n] == point
            && (forall j :: j in r.moves ==> j < |patch.nodes| && (j == n || (rank[j] < rank[n] && j in r.consumed)))
            && (rules.skipConsumed ==> forall j :: j in r.moves && j != n ==> j !in consumed)
            && (forall j :: j in r.consumed - consumed ==> j in r.moves)
    decreases rank[n], 1
  {
    var incoming := Into(order, n);
    UpstreamMoves(rules, patch, order, n, point, layout, incoming, 0, consumed, 0.0, rank);
  }

  /**
   The loop moves only nodes ranked below `root`, all of them consumed, and
   under the consumed-set rules none that was consumed before; and the node
   fed by wire `i`, when not yet consumed, ends at the upstream point for the
   current height.
   */
  lemma {:induction false} UpstreamMoves(rules: Rules, patch: Patch, order: seq<Wire>, root: NodeIndex,
                                         point: Point, layout: LayoutConstants, incoming: seq<Wire>, i: nat,
                                         consumed: set<NodeIndex>, height: real, rank: seq<nat>)
    requires LoopInputs(patch, order, root, incoming, i, rank)
    requires Complete(patch, order)
    ensures var r := Upstream(rules, patch, order, root, point, layout, incoming, i, consumed, height, rank);
            && (forall j :: j in r.moves ==> j < |patch.nodes| && rank[j] < rank[root] && j in r.consumed)
            && (rules.skipConsumed ==> forall j :: j in r.moves ==> j !in consumed)
            && (rules.skipConsumed && i < |incoming| && incoming[i].output.nodeIndex !in consumed ==>
                  && incoming[i].output.nodeIndex in r.moves
                  && r.moves[incoming[i].output.nodeIndex] == UpstreamPoint(point, layout, height))
            && (forall j :: j in r.consumed - consumed ==> j in r.moves)
    decreases rank[root], 0, |incoming| - i
  {
    if i < |incoming| {
      var r := Upstream(rules, patch, order, root, point, layout, incoming, i, consumed, height, rank);
      var ni := incoming[i].output.nodeIndex;
      assert incoming[i] in patch.wires;
      if rules.skipConsumed && ni in consumed {
        assert r == Upstream(rules, patch, order, root, point, layout, incoming, i + 1, consumed, height, rank);
        UpstreamMoves(rules, patch, order, root, point, layout, incoming, i + 1, consumed, height, rank);
      } else {
        var p := UpstreamPoint(point, layout, height);
        var last := i == |incoming| - 1;
        var rl := Layout(rules, patch, order, ni, p, layout, consumed, last, rank);
        var h := Next(rules, height, rl.height);
        var rest := Upstream(rules, patch, order, root, point, layout, incoming, i + 1, rl.consumed + {ni}, h, rank);
        assert r == Placement(rl.moves + rest.moves, rest.height, rest.consumed);
        LayoutConsumes(rules, patch, order, ni, p, layout, consumed, last, rank);
        LayoutMoves(rules, patch, order, ni, p, layout, consumed, last, rank);
        UpstreamConsumes(rules, patch, order, root, point, layout, incoming, i + 1, rl.consumed + {ni}, h, rank);
        UpstreamMoves(rules, patch, order, root, point, layout, incoming, i + 1, rl.consumed + {ni}, h, rank);
        assert ni < |patch.nodes| && rank[ni] < rank[root];
        forall j | j in r.moves
          ensures j < |patch.nodes| && rank[j] < rank[root] && j in r.consumed
          ensures rules.skipConsumed ==> j !in consumed
        {
          if j !in rest.moves {
            assert j in rl.moves;
          }
        }
        forall j | j in r.consumed - consumed
          ensures j in r.moves
        {
          if j !in rl.consumed + {ni} {
            assert j in rest.consumed - (rl.consumed + {ni});
          }
        }
      }
    }
  }

  // ---- Where the loop puts each sibling, and the height it returns ----

  /**
   One turn of the loop that lays a node out: the wire's position in the
   loop, the node feeding it, the consumed set it is laid out with, how far
   below the root it goes, and the height its layout returns.
   */
  datatype Step = Step(wire: nat, feeder: NodeIndex, before: set<NodeIndex>, offset: real, height: real)

  /**
   The turns of the loop from wire `i` on that lay a node out, in loop order,
   skipping the wires passed over: the record against which the placements
   and the height are stated.
   */
  ghost function Steps(rules: Rules, patch: Patch, order: seq<Wire>, root: NodeIndex, point: Point,
                       layout: LayoutConstants, incoming: seq<Wire>, i: nat, consumed: set<NodeIndex>,
                       height: real, rank: seq<nat>): seq<Step>
    requires LoopInputs(patch, order, root, incoming, i, rank)
    decreases |incoming| - i
  {
    if i == |incoming| then []
    else
      var ni := incoming[i].output.nodeIndex;
      if rules.skipConsumed && ni in consumed then
        Steps(rules, patch, order, root, point, layout, incoming, i + 1, consumed, height, rank)
      else
        var rl := Layout(rules, patch, order, ni, UpstreamPoint(point, layout, height), layout, consumed,
                         i == |incoming| - 1, rank);
        [Step(i, ni, consumed, height, rl.height)]
        + Steps(rules, patch, order, root, point, layout, incoming, i + 1, rl.consumed + {ni},
                Next(rules, height, rl.height), rank)
  }

  /** The height the loop ends with after `steps`, starting from `height`. */
  function Reached(rules: Rules, steps: seq<Step>, height: real): real {
    if steps == [] then height else Next(rules, steps[|steps| - 1].offset, steps[|steps| - 1].height)
  }

  /** The loop passes over wires `lo` to `hi` (exclusive): their feeders are already consumed. */
  ghost predicate PassedOver(rules: Rules, incoming: seq<Wire>, lo: nat, hi: nat, consumed: set<NodeIndex>) {
    forall j :: lo <= j < hi && j < |incoming| ==> rules.skipConsumed && incoming[j].output.nodeIndex in consumed
  }

  /**
   Each turn that lays a node out: its wire lies in the loop's range, its
   node is the one feeding that wire, and its height is the height of that
   node's own layout at the turn's offset with the turn's consumed set. The
   first turn starts from the loop's height and consumed set. Under the older
   rules every wire is a turn; under the consumed-set rules no turn's node
   was consumed before it.
   */
  lemma {:induction false} StepsTurns(rules: Rules, patch: Patch, order: seq<Wire>, root: NodeIndex, point: Point,
                                      layout: LayoutConstants, incoming: seq<Wire>, i: nat,
                                      consumed: set<NodeIndex>, height: real, rank: seq<nat>)
    requires LoopInputs(patch, order, root, incoming, i, rank)
    ensures var s := Steps(rules, patch, order, root, point, layout, incoming, i, consumed, height, rank);
            && (|s| > 0 ==> s[0].offset == height && s[0].before == consumed)
            && (forall k :: 0 <= k < |s| ==>
                  && i <= s[k].wire < |incoming|
                  && s[k].feeder == incoming[s[k].wire].output.nodeIndex
                  && s[k].height == Layout(rules, patch, order, s[k].feeder, UpstreamPoint(point, layout, s[k].offset),
                                           layout, s[k].before, s[k].wire == |incoming| - 1, rank).height)
            && (!rules.skipConsumed ==> |s| == |incoming| - i)
            && (rules.skipConsumed ==> forall k :: 0 <= k < |s| ==> s[k].feeder !in s[k].before)
    decreases |incoming| - i
  {
    if i < |incoming| {
      var ni := incoming[i].output.nodeIndex;
      var s := Steps(rules, patch, order, root, point, layout, incoming, i, consumed, height, rank);
      if rules.skipConsumed && ni in consumed {
        StepsTurns(rules, patch, order, root, point, layout, incoming, i + 1, consumed, height, rank);
      } else {
        var rl := Layout(rules, patch, order, ni, UpstreamPoint(point, layout, height), layout, consumed,
                         i == |incoming| - 1, rank);
        var tail := Steps(rules, patch, order, root, point, layout, incoming, i + 1, rl.consumed + {ni},
                          Next(rules, height, rl.height), rank);
        assert s == [Step(i, ni, consumed, height, rl.height)] + tail;
        StepsTurns(rules, patch, order, root, point, layout, incoming, i + 1, rl.consumed + {ni},
                   Next(rules, height, rl.height), rank);
        forall k | 0 <= k < |s|
          ensures i <= s[k].wire < |incoming| && s[k].feeder == incoming[s[k].wire].output.nodeIndex
          ensures s[k].height == Layout(rules, patch, order, s[k].feeder, UpstreamPoint(point, layout, s[k].offset),
                                        layout, s[k].before, s[k].wire == |incoming| - 1, rank).height
          ensures rules.skipConsumed ==> s[k].feeder !in s[k].before
        {
          if k > 0 {
            assert s[k] == tail[k - 1];
          }
        }
      }
    }
  }

  /** The first turn, if any, starts at or after wire `i` with the loop's height and consumed set. */
  lemma {:induction false} StepsHead(rules: Rules, patch: Patch, order: seq<Wire>, root: NodeIndex, point: Point,
                                     layout: LayoutConstants, incoming: seq<Wire>, i: nat,
                                     consumed: set<NodeIndex>, height: real, rank: seq<nat>)
    requires LoopInputs(patch, order, root, incoming, i, rank)
    ensures var s := Steps(rules, patch, order, root, point, layout, incoming, i, consumed, height, rank);
            |s| > 0 ==> i <= s[0].wire && s[0].offset == height && s[0].before == consumed
    decreases |incoming| - i
  {
    if i < |incoming| {
      var ni := incoming[i].output.nodeIndex;
      if rules.skipConsumed && ni in consumed {
        assert Steps(rules, patch, order, root, point, layout, incoming, i, consumed, height, rank)
            == Steps(rules, patch, order, root, point, layout, incoming, i + 1, consumed, height, rank);
        StepsHead(rules, patch, order, root, point, layout, incoming, i + 1, consumed, height, rank);
      }
    }
  }

  /**
   From one turn to the next: the wire moves on and the offset is what the
   earlier turn's height leaves. Every wire passed over between turns had its
   feeder consumed, which happens only under the consumed-set rules.
   */
  ghost predicate Chained(rules: Rules, incoming: seq<Wire>, steps: seq<Step>) {
    forall j, k :: 0 <= j && k == j + 1 && k < |steps| ==>
      && steps[j].wire < steps[k].wire
      && steps[k].offset == Next(rules, steps[j].offset, steps[j].height)
      && PassedOver(rules, incoming, steps[j].wire + 1, steps[k].wire, steps[k].before)
  }

  /** A turn put in front of chained turns keeps them chained when it links to the first of them. */
  lemma ChainedCons(rules: Rules, incoming: seq<Wire>, first: Step, rest: seq<Step>)
    requires Chained(rules, incoming, rest)
    requires |rest| > 0 ==> && first.wire < rest[0].wire
                            && rest[0].offset == Next(rules, first.offset, first.height)
                            && PassedOver(rules, incoming, first.wire + 1, rest[0].wire, rest[0].before)
    ensures Chained(rules, incoming, [first] + rest)
  {
    var s := [first] + rest;
    forall j, k | 0 <= j && k == j + 1 && k < |s|
      ensures s[j].wire < s[k].wire && s[k].offset == Next(rules, s[j].offset, s[j].height)
      ensures PassedOver(rules, incoming, s[j].wire + 1, s[k].wire, s[k].before)
    {
      assert s[k] == rest[j];
      if j > 0 {
        assert s[j] == rest[j - 1];
      }
    }
  }

  /**
   The turns are chained, and every wire passed over before the first turn
   (every wire, when there is no turn) had its feeder consumed.
   */
  lemma {:induction false} StepsChain(rules: Rules, patch: Patch, order: seq<Wire>, root: NodeIndex, point: Point,
                                      layout: LayoutConstants, incoming: seq<Wire>, i: nat,
                                      consumed: set<NodeIndex>, height: real, rank: seq<nat>)
    requires LoopInputs(patch, order, root, incoming, i, rank)
    ensures var s := Steps(rules, patch, order, root, point, layout, incoming, i, consumed, height, rank);
            && Chained(rules, incoming, s)
            && PassedOver(rules, incoming, i, if |s| > 0 then s[0].wire else |incoming|, consumed)
    decreases |incoming| - i
  {
    if i < |incoming| {
      var ni := incoming[i].output.nodeIndex;
      var s := Steps(rules, patch, order, root, point, layout, incoming, i, consumed, height, rank);
      if rules.skipConsumed && ni in consumed {
        assert s == Steps(rules, patch, order, root, point, layout, incoming, i + 1, consumed, height, rank);
        StepsChain(rules, patch, order, root, point, layout, incoming, i + 1, consumed, height, rank);
        StepsHead(rules, patch, order, root, point, layout, incoming, i + 1, consumed, height, rank);
      } else {
        var rl := Layout(rules, patch, order, ni, UpstreamPoint(point, layout, height), layout, consumed,
                         i == |incoming| - 1, rank);
        var h := Next(rules, height, rl.height);
        var tail := Steps(rules, patch, order, root, point, layout, incoming, i + 1, rl.consumed + {ni}, h, rank);
        assert s == [Step(i, ni, consumed, height, rl.height)] + tail;
        StepsChain(rules, patch, order, root, point, layout, incoming, i + 1, rl.consumed + {ni}, h, rank);
        StepsHead(rules, patch, order, root, point, layout, incoming, i + 1, rl.consumed + {ni}, h, rank);
        ChainedCons(rules, incoming, Step(i, ni, consumed, height, rl.height), tail);
      }
    }
  }

  /**
   Turn `b` is laid out with the consumed set that turn `a`'s layout
   returned, `a`'s node added.
   */
  ghost predicate HandsOn(rules: Rules, patch: Patch, order: seq<Wire>, point: Point, layout: LayoutConstants,
                          incoming: seq<Wire>, a: Step, b: Step, rank: seq<nat>) {
    && a.feeder < |patch.nodes| && Ranked(patch, rank, a.feeder) && Listed(patch, order)
    && b.before == Layout(rules, patch, order, a.feeder, UpstreamPoint(point, layout, a.offset), layout, a.before,
                          a.wire == |incoming| - 1, rank).consumed + {a.feeder}
  }

  /** Each turn after the first is handed on its consumed set by the turn before it. */
  ghost predicate HandedOn(rules: Rules, patch: Patch, order: seq<Wire>, point: Point, layout: LayoutConstants,
                           incoming: seq<Wire>, steps: seq<Step>, rank: seq<nat>) {
    forall j, k :: 0 <= j && k == j + 1 && k < |steps| ==>
      HandsOn(rules, patch, order, point, layout, incoming, steps[j], steps[k], rank)
  }

  /** A turn put in front of turns that hand on their consumed sets keeps that when it hands on to the first of them. */
  lemma HandedOnCons(rules: Rules, patch: Patch, order: seq<Wire>, point: Point, layout: LayoutConstants,
                     incoming: seq<Wire>, first: Step, rest: seq<Step>, rank: seq<nat>)
    requires HandedOn(rules, patch, order, point, layout, incoming, rest, rank)
    requires |rest| > 0 ==> HandsOn(rules, patch, order, point, layout, incoming, first, rest[0], rank)
    ensures HandedOn(rules, patch, order, point, layout, incoming, [first] + rest, rank)
  {
    var s := [first] + rest;
    forall j, k | 0 <= j && k == j + 1 && k < |s|
      ensures HandsOn(rules, patch, order, point, layout, incoming, s[j], s[k], rank)
    {
      assert s[k] == rest[j];
      if j > 0 {
        assert s[j] == rest[j - 1];
      }
    }
  }

  lemma {:induction false} StepsConsumed(rules: Rules, patch: Patch, order: seq<Wire>, root: NodeIndex, point: Point,
                                         layout: LayoutConstants, incoming: seq<Wire>, i: nat,
                                         consumed: set<NodeIndex>, height: real, rank: seq<nat>)
    requires LoopInputs(patch, order, root, incoming, i, rank)
    ensures HandedOn(rules, patch, order, point, layout, incoming,
                     Steps(rules, patch, order, root, point, layout, incoming, i, consumed, height, rank), rank)
    decreases |incoming| - i
  {
    if i < |incoming| {
      var ni := incoming[i].output.nodeIndex;
      var s := Steps(rules, patch, order, root, point, layout, incoming, i, consumed, height, rank);
      if rules.skipConsumed && ni in consumed {
        assert s == Steps(rules, patch, order, root, point, layout, incoming, i + 1, consumed, height, rank);
        StepsConsumed(rules, patch, order, root, point, layout, incoming, i + 1, consumed, height, rank);
      } else {
        var rl := Layout(rules, patch, order, ni, UpstreamPoint(point, layout, height), layout, consumed,
                         i == |incoming| - 1, rank);
        var h := Next(rules, height, rl.height);
        var tail := Steps(rules, patch, order, root, point, layout, incoming, i + 1, rl.consumed + {ni}, h, rank);
        assert s == [Step(i, ni, consumed, height, rl.height)] + tail;
        StepsConsumed(rules, patch, order, root, point, layout, incoming, i + 1, rl.consumed + {ni}, h, rank);
        StepsHead(rules, patch, order, root, point, layout, incoming, i + 1, rl.consumed + {ni}, h, rank);
        assert ni < |patch.nodes| && Ranked(patch, rank, ni);
        assert |tail| > 0 ==> HandsOn(rules, patch, order, point, layout, incoming,
                                      Step(i, ni, consumed, height, rl.height), tail[0], rank);
        HandedOnCons(rules, patch, order, point, layout, incoming, Step(i, ni, consumed, height, rl.height), tail, rank);
      }
    }
  }

  /** The loop ends with the height its last turn leaves, or the height it started with when no turn lays a node out. */
  lemma {:induction false} UpstreamHeight(rules: Rules, patch: Patch, order: seq<Wire>, root: NodeIndex, point: Point,
                                          layout: LayoutConstants, incoming: seq<Wire>, i: nat,
                                          consumed: set<NodeIndex>, height: real, rank: seq<nat>)
    requires LoopInputs(patch, order, root, incoming, i, rank)
    ensures Upstream(rules, patch, order, root, point, layout, incoming, i, consumed, height, rank).height
         == Reached(rules, Steps(rules, patch, order, root, point, layout, incoming, i, consumed, height, rank), height)
    decreases |incoming| - i
  {
    if i < |incoming| {
      var ni := incoming[i].output.nodeIndex;
      if rules.skipConsumed && ni in consumed {
        UpstreamHeight(rules, patch, order, root, point, layout, incoming, i + 1, consumed, height, rank);
      } else {
        var rl := Layout(rules, patch, order, ni, UpstreamPoint(point, layout, height), layout, consumed,
                         i == |incoming| - 1, rank);
        var h := Next(rules, height, rl.height);
        var tail := Steps(rules, patch, order, root, point, layout, incoming, i + 1, rl.consumed + {ni}, h, rank);
        var s := [Step(i, ni, consumed, height, rl.height)] + tail;
        UpstreamHeight(rules, patch, order, root, point, layout, incoming, i + 1, rl.consumed + {ni}, h, rank);
        if tail != [] {
          assert s[|s| - 1] == tail[|tail| - 1];
        }
      }
    }
  }

  /** Each turn's node is placed one column left of the root, its offset below. */
  ghost predicate Placed(moves: map<NodeIndex, Point>, steps: seq<Step>, point: Point, layout: LayoutConstants) {
    forall k :: 0 <= k < |steps| ==>
      steps[k].feeder in moves && moves[steps[k].feeder] == UpstreamPoint(point, layout, steps[k].offset)
  }

  /**
   Under the consumed-set rules each node a turn lays out stays where that
   turn put it: one column left of the root, its offset below.
   */
  lemma {:induction false} UpstreamPlaces(rules: Rules, patch: Patch, order: seq<Wire>, root: NodeIndex, point: Point,
                                          layout: LayoutConstants, incoming: seq<Wire>, i: nat,
                                          consumed: set<NodeIndex>, height: real, rank: seq<nat>)
    requires LoopInputs(patch, order, root, incoming, i, rank)
    requires Complete(patch, order) && rules.skipConsumed
    ensures Placed(Upstream(rules, patch, order, root, point, layout, incoming, i, consumed, height, rank).moves,
                   Steps(rules, patch, order, root, point, layout, incoming, i, consumed, height, rank), point, layout)
    decreases |incoming| - i
  {
    if i < |incoming| {
      var ni := incoming[i].output.nodeIndex;
      var r := Upstream(rules, patch, order, root, point, layout, incoming, i, consumed, height, rank);
      if ni in consumed {
        assert r == Upstream(rules, patch, order, root, point, layout, incoming, i + 1, consumed, height, rank);
        UpstreamPlaces(rules, patch, order, root, point, layout, incoming, i + 1, consumed, height, rank);
      } else {
        assert incoming[i] in patch.wires;
        var p := UpstreamPoint(point, layout, height);
        var last := i == |incoming| - 1;
        var rl := Layout(rules, patch, order, ni, p, layout, consumed, last, rank);
        var h := Next(rules, height, rl.height);
        var rest := Upstream(rules, patch, order, root, point, layout, incoming, i + 1, rl.consumed + {ni}, h, rank);
        var tail := Steps(rules, patch, order, root, point, layout, incoming, i + 1, rl.consumed + {ni}, h, rank);
        var s := [Step(i, ni, consumed, height, rl.height)] + tail;
        assert s == Steps(rules, patch, order, root, point, layout, incoming, i, consumed, height, rank);
        assert r.moves == rl.moves + rest.moves;
        LayoutMoves(rules, patch, order, ni, p, layout, consumed, last, rank);
        UpstreamMoves(rules, patch, order, root, point, layout, incoming, i + 1, rl.consumed + {ni}, h, rank);
        UpstreamPlaces(rules, patch, order, root, point, layout, incoming, i + 1, rl.consumed + {ni}, h, rank);
        assert Placed(rest.moves, tail, point, layout);
        assert ni !in rest.moves;
        forall k | 0 <= k < |s|
          ensures s[k].feeder in r.moves && r.moves[s[k].feeder] == UpstreamPoint(point, layout, s[k].offset)
        {
          if k == 0 {
            assert s[k].feeder == ni && s[k].offset == height;
            assert ni in rl.moves && rl.moves[ni] == p;
            assert r.moves[ni] == rl.moves[ni];
          } else {
            assert s[k] == tail[k - 1];
            assert s[k].feeder in rest.moves;
            assert r.moves[s[k].feeder] == rest.moves[s[k].feeder];
          }
        }
      }
    }
  }

  /**
   A layout's height is the larger of the height its loop ends with and the
   node's own, plus the padding.
   */
  lemma LayoutHeight(rules: Rules, patch: Patch, order: seq<Wire>, n: NodeIndex, point: Point,
                     layout: LayoutConstants, consumed: set<NodeIndex>, padding: bool, rank: seq<nat>)
    requires n < |patch.nodes| && Ranked(patch, rank, n) && Listed(patch, order)
    ensures var s := Steps(rules, patch, order, n, point, layout, Into(order, n), 0, consumed, 0.0, rank);
            Layout(rules, patch, order, n, point, layout, consumed, padding, rank).height
            == Max(Reached(rules, s, 0.0), NodeHeight(patch.nodes[n], layout)) + Padding(rules, padding, layout)
  {
    UpstreamHeight(rules, patch, order, n, point, layout, Into(order, n), 0, consumed, 0.0, rank);
  }

  /** Under the consumed-set rules a layout leaves each node its loop lays out where that turn put it. */
  lemma LayoutPlaces(rules: Rules, patch: Patch, order: seq<Wire>, n: NodeIndex, point: Point,
                     layout: LayoutConstants, consumed: set<NodeIndex>, padding: bool, rank: seq<nat>)
    requires n < |patch.nodes| && Ranked(patch, rank, n) && Listed(patch, order) && Complete(patch, order)
    requires rules.skipConsumed
    ensures Placed(Layout(rules, patch, order, n, point, layout, consumed, padding, rank).moves,
                   Steps(rules, patch, order, n, point, layout, Into(order, n), 0, consumed, 0.0, rank), point, layout)
  {
    var incoming := Into(order, n);
    var up := Upstream(rules, patch, order, n, point, layout, incoming, 0, consumed, 0.0, rank);
    var s := Steps(rules, patch, order, n, point, layout, incoming, 0, consumed, 0.0, rank);
    var moves := Layout(rules, patch, order, n, point, layout, consumed, padding, rank).moves;
    UpstreamPlaces(rules, patch, order, n, point, layout, incoming, 0, consumed, 0.0, rank);
    StepsTurns(rules, patch, order, n, point, layout, incoming, 0, consumed, 0.0, rank);
    forall k | 0 <= k < |s|
      ensures s[k].feeder in moves && moves[s[k].feeder] == UpstreamPoint(point, layout, s[k].offset)
    {
      assert incoming[s[k].wire] in patch.wires;
      assert s[k].feeder != n;
    }
  }

  // ---- The corrected layout keeps each subtree within its height ----

  lemma NodeHeightNonNegative(n: Node, layout: LayoutConstants)
    requires SaneLayout(layout)
    ensures NodeHeight(n, layout) >= 0.0
  {
    var c := layout.portSize.height + layout.portSpacing;
    if PortRows(n) > 0 {
      ScaleAtLeastOnce(PortRows(n) as real, c);
    }
  }

  /**
   Every node placed in `moves` is a node of the patch lying, with its whole
   height, between `top` and `bottom`.
   */
  ghost predicate InBand(patch: Patch, moves: map<NodeIndex, Point>, top: real, bottom: real,
                         layout: LayoutConstants) {
    forall j :: j in moves ==>
      j < |patch.nodes| && top <= moves[j].y && moves[j].y + NodeHeight(patch.nodes[j], layout) <= bottom
  }

  /**
   With the sibling heights summed, the returned height is what the source's
   documentation promises: every node the call places lies within `height`
   below `point`.
   */
  lemma {:induction false} LayoutInBand(rules: Rules, patch: Patch, order: seq<Wire>, n: NodeIndex,
                                        point: Point, layout: LayoutConstants, consumed: set<NodeIndex>,
                                        padding: bool, rank: seq<nat>)
    requires n < |patch.nodes| && Ranked(patch, rank, n) && Listed(patch, order)
    requires rules.runningSum && SaneLayout(layout) && layout.nodeSpacing >= 0.0
    ensures var r := Layout(rules, patch, order, n, point, layout, consumed, padding, rank);
            InBand(patch, r.moves, point.y, point.y + r.height, layout)
    decreases rank[n], 1
  {
    var r := Layout(rules, patch, order, n, point, layout, consumed, padding, rank);
    var up := Upstream(rules, patch, order, n, point, layout, Into(order, n), 0, consumed, 0.0, rank);
    UpstreamInBand(rules, patch, order, n, point, layout, Into(order, n), 0, consumed, 0.0, rank);
    assert r.moves == map[n := point] + up.moves;
    assert r.height >= up.height && r.height >= NodeHeight(patch.nodes[n], layout);
    forall j | j in r.moves
      ensures j < |patch.nodes| && point.y <= r.moves[j].y
      ensures r.moves[j].y + NodeHeight(patch.nodes[j], layout) <= point.y + r.height
    {
      if j in up.moves {
        assert r.moves[j] == up.moves[j];
      }
    }
  }

  /** The loop keeps every node it places below the running height and above the final one. */
  lemma {:induction false} UpstreamInBand(rules: Rules, patch: Patch, order: seq<Wire>, root: NodeIndex,
                                          point: Point, layout: LayoutConstants, incoming: seq<Wire>, i: nat,
                                          consumed: set<NodeIndex>, height: real, rank: seq<nat>)
    requires LoopInputs(patch, order, root, incoming, i, rank)
    requires rules.runningSum && SaneLayout(layout) && layout.nodeSpacing >= 0.0
    ensures var r := Upstream(rules, patch, order, root, point, layout, incoming, i, consumed, height, rank);
            && r.height >= height
            && InBand(patch, r.moves, point.y + height, point.y + r.height, layout)
    decreases rank[root], 0, |incoming| - i
  {
    if i < |incoming| {
      var r := Upstream(rules, patch, order, root, point, layout, incoming, i, consumed, height, rank);
      var ni := incoming[i].output.nodeIndex;
      assert incoming[i] in patch.wires;
      if rules.skipConsumed && ni in consumed {
        assert r == Upstream(rules, patch, order, root, point, layout, incoming, i + 1, consumed, height, rank);
        UpstreamInBand(rules, patch, order, root, point, layout, incoming, i + 1, consumed, height, rank);
      } else {
        var p := UpstreamPoint(point, layout, height);
        var last := i == |incoming| - 1;
        var rl := Layout(rules, patch, order, ni, p, layout, consumed, last, rank);
        var h := height + rl.height;
        var rest := Upstream(rules, patch, order, root, point, layout, incoming, i + 1, rl.consumed + {ni}, h, rank);
        assert r == Placement(rl.moves + rest.moves, rest.height, rest.consumed);
        NodeHeightNonNegative(patch.nodes[ni], layout);
        assert rl.height >= 0.0;
        LayoutInBand(rules, patch, order, ni, p, layout, consumed, last, rank);
        UpstreamInBand(rules, patch, order, root, point, layout, incoming, i + 1, rl.consumed + {ni}, h, rank);
        forall j | j in r.moves
          ensures j < |patch.nodes| && point.y + height <= r.moves[j].y
          ensures r.moves[j].y + NodeHeight(patch.nodes[j], layout) <= point.y + r.height
        {
          if j in rest.moves {
            assert r.moves[j] == rest.moves[j];
          } else {
            assert r.moves[j] == rl.moves[j];
          }
        }
      }
    }
  }

  // ---- The three layouts, as the editor's callers see them ----

  /** `recursiveLayout`'s result: the laid-out patch, the aggregate height and the consumed set. */
  datatype LayoutOutcome = LayoutOutcome(patch: Patch, aggregateHeight: real, consumed: set<NodeIndex>)

  /**
   `recursiveLayout` of Patch+Layout.swift, with the wire set enumerated in
   `WireLeq` order. Only positions change; the root ends at `point`; the
   consumed set grows, by nodes ranked below the root, to cover every node
   feeding the root; a node other than the root that moves is newly consumed;
   the height covers the root and its padding.
   */
  function RecursiveLayout(patch: Patch, nodeIndex: NodeIndex, point: Point, layout: LayoutConstants,
                           consumed: set<NodeIndex>, nodePadding: bool, ghost rank: seq<nat>): (r: LayoutOutcome)
    requires nodeIndex < |patch.nodes| && Ranked(patch, rank, nodeIndex)
    ensures SameShape(patch, r.patch)
    ensures r.patch.nodes[nodeIndex].position == point
    ensures consumed <= r.consumed
    ensures forall j :: j in r.consumed - consumed ==> j < |patch.nodes| && rank[j] < rank[nodeIndex]
    ensures forall w :: w in patch.wires && w.input.nodeIndex == nodeIndex ==> w.output.nodeIndex in r.consumed
    ensures forall j :: 0 <= j < |patch.nodes| && j != nodeIndex && r.patch.nodes[j] != patch.nodes[j] ==>
              j in r.consumed - consumed
    ensures r.aggregateHeight >= NodeHeight(patch.nodes[nodeIndex], layout) + (if nodePadding then layout.nodeSpacing else 0.0)
    ensures var order := SortedWires(patch.wires);
            var s := Steps(Current, patch, order, nodeIndex, point, layout, Into(order, nodeIndex), 0, consumed, 0.0, rank);
            && r.aggregateHeight == Max(if s == [] then 0.0 else s[|s| - 1].height, NodeHeight(patch.nodes[nodeIndex], layout))
                                    + (if nodePadding then layout.nodeSpacing else 0.0)
            && SiblingsPlaced(Current, r.patch, s, point, layout)
  {
    var order := SortedWires(patch.wires);
    var pl := Layout(Current, patch, order, nodeIndex, point, layout, consumed, nodePadding, rank);
    LayoutConsumes(Current, patch, order, nodeIndex, point, layout, consumed, nodePadding, rank);
    ConsumedRulesOutcome(Current, patch, order, nodeIndex, point, layout, consumed, nodePadding, rank);
    CurrentSteps(patch, order, nodeIndex, point, layout, consumed, nodePadding, rank);
    LayoutOutcome(Apply(patch, pl.moves), pl.height, pl.consumed)
  }

  /**
   Under the consumed-set rules, the patch with the positions written in has
   the root at `point`, and every other node whose position changed is newly
   consumed.
   */
  lemma ConsumedRulesOutcome(rules: Rules, patch: Patch, order: seq<Wire>, n: NodeIndex, point: Point,
                             layout: LayoutConstants, consumed: set<NodeIndex>, padding: bool, rank: seq<nat>)
    requires n < |patch.nodes| && Ranked(patch, rank, n) && Listed(patch, order) && Complete(patch, order)
    requires rules.skipConsumed
    ensures var pl := Layout(rules, patch, order, n, point, layout, consumed, padding, rank);
            var p := Apply(patch, pl.moves);
            && p.nodes[n].position == point
            && forall j :: 0 <= j < |patch.nodes| && j != n && p.nodes[j] != patch.nodes[j] ==> j in pl.consumed - consumed
  {
    var pl := Layout(rules, patch, order, n, point, layout, consumed, padding, rank);
    LayoutMoves(rules, patch, order, n, point, layout, consumed, padding, rank);
    var p := Apply(patch, pl.moves);
    forall j | 0 <= j < |patch.nodes| && j != n && p.nodes[j] != patch.nodes[j]
      ensures j in pl.consumed - consumed
    {
      assert j in pl.moves;
    }
  }

  /** `RecursiveLayout`'s height and sibling placements, stated on the walk. */
  lemma CurrentSteps(patch: Patch, order: seq<Wire>, n: NodeIndex, point: Point, layout: LayoutConstants,
                     consumed: set<NodeIndex>, padding: bool, rank: seq<nat>)
    requires n < |patch.nodes| && Ranked(patch, rank, n) && order == SortedWires(patch.wires)
    ensures var s := Steps(Current, patch, order, n, point, layout, Into(order, n), 0, consumed, 0.0, rank);
            var pl := Layout(Current, patch, order, n, point, layout, consumed, padding, rank);
            && pl.height == Max(if s == [] then 0.0 else s[|s| - 1].height, NodeHeight(patch.nodes[n], layout))
                            + (if padding then layout.nodeSpacing else 0.0)
            && SiblingsPlaced(Current, Apply(patch, pl.moves), s, point, layout)
  {
    var s := Steps(Current, patch, order, n, point, layout, Into(order, n), 0, consumed, 0.0, rank);
    var pl := Layout(Current, patch, order, n, point, layout, consumed, padding, rank);
    ConsumedRulesSteps(Current, patch, order, n, point, layout, consumed, padding, rank);
    assert Reached(Current, s, 0.0) == if s == [] then 0.0 else s[|s| - 1].height;
  }

  /** Under the consumed-set rules, a layout's height and sibling placements, stated on the walk. */
  lemma ConsumedRulesSteps(rules: Rules, patch: Patch, order: seq<Wire>, n: NodeIndex, point: Point,
                           layout: LayoutConstants, consumed: set<NodeIndex>, padding: bool, rank: seq<nat>)
    requires n < |patch.nodes| && Ranked(patch, rank, n) && order == SortedWires(patch.wires)
    requires rules.skipConsumed && rules.padWhen
    ensures var s := Steps(rules, patch, order, n, point, layout, Into(order, n), 0, consumed, 0.0, rank);
            var pl := Layout(rules, patch, order, n, point, layout, consumed, padding, rank);
            && pl.height == Max(Reached(rules, s, 0.0), NodeHeight(patch.nodes[n], layout))
                            + (if padding then layout.nodeSpacing else 0.0)
            && SiblingsPlaced(rules, Apply(patch, pl.moves), s, point, layout)
  {
    var s := Steps(rules, patch, order, n, point, layout, Into(order, n), 0, consumed, 0.0, rank);
    var pl := Layout(rules, patch, order, n, point, layout, consumed, padding, rank);
    TopLevelSteps(rules, patch, order, n, point, layout, consumed, padding, rank);
    PlacedInTurn(rules, patch, pl.moves, s, point, layout);
  }

  /** The older layout's height, stated on the walk. */
  lemma LegacySteps(patch: Patch, order: seq<Wire>, n: NodeIndex, point: Point, layout: LayoutConstants,
                    padding: bool, rank: seq<nat>)
    requires n < |patch.nodes| && Ranked(patch, rank, n) && order == SortedWires(patch.wires)
    ensures var s := Steps(Legacy, patch, order, n, point, layout, Into(order, n), 0, {}, 0.0, rank);
            Layout(Legacy, patch, order, n, point, layout, {}, padding, rank).height
            == Max(if s == [] then 0.0 else s[|s| - 1].height, NodeHeight(patch.nodes[n], layout))
               + (if padding then 0.0 else layout.nodeSpacing)
  {
    var s := Steps(Legacy, patch, order, n, point, layout, Into(order, n), 0, {}, 0.0, rank);
    LayoutHeight(Legacy, patch, order, n, point, layout, {}, padding, rank);
    assert Reached(Legacy, s, 0.0) == if s == [] then 0.0 else s[|s| - 1].height;
  }

  /**
   The turns' nodes are nodes of `p` one column left of the root: the first
   level with it, each later one below it by what the previous turn leaves
   (under the rules as written, the previous turn's height alone).
   */
  ghost predicate SiblingsPlaced(rules: Rules, p: Patch, s: seq<Step>, point: Point, layout: LayoutConstants) {
    && (forall k :: 0 <= k < |s| ==> s[k].feeder < |p.nodes|)
    && (|s| > 0 ==> p.nodes[s[0].feeder].position == Point(point.x - layout.nodeWidth - layout.nodeSpacing, point.y))
    && (forall j, k :: 0 <= j && k == j + 1 && k < |s| ==>
          p.nodes[s[k].feeder].position == Point(point.x - layout.nodeWidth - layout.nodeSpacing,
                                                 point.y + Next(rules, s[j].offset, s[j].height)))
  }

  /** Turns placed at their offsets, starting level and chained by `Next`, are placed as siblings. */
  lemma PlacedInTurn(rules: Rules, patch: Patch, moves: map<NodeIndex, Point>, s: seq<Step>, point: Point,
                     layout: LayoutConstants)
    requires Placed(moves, s, point, layout)
    requires |s| > 0 ==> s[0].offset == 0.0
    requires forall j, k :: 0 <= j && k == j + 1 && k < |s| ==> s[k].offset == Next(rules, s[j].offset, s[j].height)
    requires forall k :: 0 <= k < |s| ==> s[k].feeder < |patch.nodes|
    ensures SiblingsPlaced(rules, Apply(patch, moves), s, point, layout)
  {
  }

  /**
   What the layouts read off the walk over their wires: its height, where
   each turn starts, and under the consumed-set rules where each turn's node
   ends.
   */
  lemma TopLevelSteps(rules: Rules, patch: Patch, order: seq<Wire>, n: NodeIndex, point: Point,
                      layout: LayoutConstants, consumed: set<NodeIndex>, padding: bool, rank: seq<nat>)
    requires n < |patch.nodes| && Ranked(patch, rank, n) && order == SortedWires(patch.wires)
    ensures var s := Steps(rules, patch, order, n, point, layout, Into(order, n), 0, consumed, 0.0, rank);
            var pl := Layout(rules, patch, order, n, point, layout, consumed, padding, rank);
            && pl.height == Max(Reached(rules, s, 0.0), NodeHeight(patch.nodes[n], layout)) + Padding(rules, padding, layout)
            && (|s| > 0 ==> s[0].offset == 0.0)
            && (forall j, k :: 0 <= j && k == j + 1 && k < |s| ==> s[k].offset == Next(rules, s[j].offset, s[j].height))
            && (forall k :: 0 <= k < |s| ==> s[k].feeder < |patch.nodes|)
            && (rules.skipConsumed ==> Placed(pl.moves, s, point, layout))
  {
    var incoming := Into(order, n);
    LayoutHeight(rules, patch, order, n, point, layout, consumed, padding, rank);
    StepsTurns(rules, patch, order, n, point, layout, incoming, 0, consumed, 0.0, rank);
    StepsChain(rules, patch, order, n, point, layout, incoming, 0, consumed, 0.0, rank);
    if rules.skipConsumed {
      LayoutPlaces(rules, patch, order, n, point, layout, consumed, padding, rank);
    }
    var s := Steps(rules, patch, order, n, point, layout, incoming, 0, consumed, 0.0, rank);
    forall k | 0 <= k < |s|
      ensures s[k].feeder < |patch.nodes|
    {
      assert incoming[s[k].wire] in patch.wires;
    }
  }

  /**
   `recursiveLayout` of Patch.swift: the same walk with no consumed set, and
   with the spacing added when the padding flag is off. Only positions change;
   the root ends at `point`; only nodes ranked below the root move besides it.
   */
  function LegacyRecursiveLayout(patch: Patch, nodeIndex: NodeIndex, point: Point, layout: LayoutConstants,
                                 nodePadding: bool, ghost rank: seq<nat>): (r: (Patch, real))
    requires nodeIndex < |patch.nodes| && Ranked(patch, rank, nodeIndex)
    ensures SameShape(patch, r.0)
    ensures r.0.nodes[nodeIndex].position == point
    ensures forall j :: 0 <= j < |patch.nodes| && j != nodeIndex && r.0.nodes[j] != patch.nodes[j] ==>
              rank[j] < rank[nodeIndex]
    ensures r.1 >= NodeHeight(patch.nodes[nodeIndex], layout) + (if nodePadding then 0.0 else layout.nodeSpacing)
    ensures var order := SortedWires(patch.wires);
            var s := Steps(Legacy, patch, order, nodeIndex, point, layout, Into(order, nodeIndex), 0, {}, 0.0, rank);
            r.1 == Max(if s == [] then 0.0 else s[|s| - 1].height, NodeHeight(patch.nodes[nodeIndex], layout))
                   + (if nodePadding then 0.0 else layout.nodeSpacing)
  {
    var order := SortedWires(patch.wires);
    var pl := Layout(Legacy, patch, order, nodeIndex, point, layout, {}, nodePadding, rank);
    LegacySteps(patch, order, nodeIndex, point, layout, nodePadding, rank);
    LayoutMoves(Legacy, patch, order, nodeIndex, point, layout, {}, nodePadding, rank);
    (Apply(patch, pl.moves), pl.height)
  }

  /**
   `recursiveLayout` with each sibling placed below the total height of the
   earlier ones. Beyond what the source's version keeps, under sane constants
   the aggregate height is what the source documents it to be: the root and
   every newly consumed node lie, with their whole height, within it below
   `point`.
   */
  function CorrectedRecursiveLayout(patch: Patch, nodeIndex: NodeIndex, point: Point, layout: LayoutConstants,
                                    consumed: set<NodeIndex>, nodePadding: bool,
                                    ghost rank: seq<nat>): (r: LayoutOutcome)
    requires nodeIndex < |patch.nodes| && Ranked(patch, rank, nodeIndex)
    ensures SameShape(patch, r.patch)
    ensures r.patch.nodes[nodeIndex].position == point
    ensures consumed <= r.consumed
    ensures forall j :: j in r.consumed - consumed ==> j < |patch.nodes| && rank[j] < rank[nodeIndex]
    ensures forall w :: w in patch.wires && w.input.nodeIndex == nodeIndex ==> w.output.nodeIndex in r.consumed
    ensures forall j :: 0 <= j < |patch.nodes| && j != nodeIndex && r.patch.nodes[j] != patch.nodes[j] ==>
              j in r.consumed - consumed
    ensures SaneLayout(layout) && layout.nodeSpacing >= 0.0 ==>
              forall j :: 0 <= j < |patch.nodes| && (j == nodeIndex || j in r.consumed - consumed) ==>
                && point.y <= r.patch.nodes[j].position.y
                && r.patch.nodes[j].position.y + NodeHeight(patch.nodes[j], layout) <= point.y + r.aggregateHeight
    ensures var order := SortedWires(patch.wires);
            var s := Steps(Corrected, patch, order, nodeIndex, point, layout, Into(order, nodeIndex), 0, consumed, 0.0, rank);
            && r.aggregateHeight == Max(Reached(Corrected, s, 0.0), NodeHeight(patch.nodes[nodeIndex], layout))
                                    + (if nodePadding then layout.nodeSpacing else 0.0)
            && SiblingsPlaced(Corrected, r.patch, s, point, layout)
  {
    var order := SortedWires(patch.wires);
    var pl := Layout(Corrected, patch, order, nodeIndex, point, layout, consumed, nodePadding, rank);
    ConsumedRulesSteps(Corrected, patch, order, nodeIndex, point, layout, consumed, nodePadding, rank);
    LayoutConsumes(Corrected, patch, order, nodeIndex, point, layout, consumed, nodePadding, rank);
    ConsumedRulesOutcome(Corrected, patch, order, nodeIndex, point, layout, consumed, nodePadding, rank);
    CorrectedOutcomeInBand(patch, order, nodeIndex, point, layout, consumed, nodePadding, rank);
    LayoutOutcome(Apply(patch, pl.moves), pl.height, pl.consumed)
  }

  /** The band of `CorrectedInBand`, read off the patch with the positions written in. */
  lemma CorrectedOutcomeInBand(patch: Patch, order: seq<Wire>, n: NodeIndex, point: Point, layout: LayoutConstants,
                               consumed: set<NodeIndex>, padding: bool, rank: seq<nat>)
    requires n < |patch.nodes| && Ranked(patch, rank, n) && Listed(patch, order) && Complete(patch, order)
    ensures var pl := Layout(Corrected, patch, order, n, point, layout, consumed, padding, rank);
            var p := Apply(patch, pl.moves);
            SaneLayout(layout) && layout.nodeSpacing >= 0.0 ==>
              forall j :: 0 <= j < |patch.nodes| && (j == n || j in pl.consumed - consumed) ==>
                && point.y <= p.nodes[j].position.y
                && p.nodes[j].position.y + NodeHeight(patch.nodes[j], layout) <= point.y + pl.height
  {
    var pl := Layout(Corrected, patch, order, n, point, layout, consumed, padding, rank);
    LayoutConsumes(Corrected, patch, order, n, point, layout, consumed, padding, rank);
    LayoutMoves(Corrected, patch, order, n, point, layout, consumed, padding, rank);
    CorrectedInBand(patch, order, n, point, layout, consumed, padding, rank);
  }

  lemma CorrectedInBand(patch: Patch, order: seq<Wire>, n: NodeIndex, point: Point, layout: LayoutConstants,
                        consumed: set<NodeIndex>, padding: bool, rank: seq<nat>)
    requires n < |patch.nodes| && Ranked(patch, rank, n) && Listed(patch, order)
    ensures SaneLayout(layout) && layout.nodeSpacing >= 0.0 ==>
              var r := Layout(Corrected, patch, order, n, point, layout, consumed, padding, rank);
              InBand(patch, r.moves, point.y, point.y + r.height, layout)
  {
    if SaneLayout(layout) && layout.nodeSpacing >= 0.0 {
      LayoutInBand(Corrected, patch, order, n, point, layout, consumed, padding, rank);
    }
  }
}
