/**
 The patch (Patch.swift) and its gesture helpers (Patch+Gestures.swift):
 the patch-level hit test in both revisions, moving a node and rubber-band
 selection.
 */
module Patches {
  import opened Options
  import opened Geometry
  import opened Ports
  import opened Wires
  import opened Nodes

  /** A sequence of nodes, addressed by index, and a set of wires. */
  datatype Patch = Patch(nodes: seq<Node>, wires: set<Wire>)

  /** Notifications to the host, returned in the order the source fires them. */
  datatype Event =
    | NodeMoved(index: NodeIndex, position: Point)
    | WireAdded(wire: Wire)
    | WireRemoved(wire: Wire)

  /** A patch together with the notifications an edit fired. */
  datatype Edit = Edit(patch: Patch, events: seq<Event>)

  /** Every wire names nodes that exist; the source traps on any other index. */
  predicate WiresInRange(patch: Patch) {
    forall w :: w in patch.wires ==> w.output.nodeIndex < |patch.nodes| && w.input.nodeIndex < |patch.nodes|
  }

  /** `b` differs from `a` at most in node positions. */
  predicate SameShape(a: Patch, b: Patch) {
    && a.wires == b.wires
    && |a.nodes| == |b.nodes|
    && forall j :: 0 <= j < |a.nodes| ==> b.nodes[j].(position := a.nodes[j].position) == a.nodes[j]
  }

  lemma SameShapeTransitive(a: Patch, b: Patch, c: Patch)
    requires SameShape(a, b) && SameShape(b, c)
    ensures SameShape(a, c)
  {
    forall j | 0 <= j < |a.nodes|
      ensures c.nodes[j].(position := a.nodes[j].position) == a.nodes[j]
    {
      assert b.nodes[j].(position := a.nodes[j].position) == a.nodes[j];
      assert c.nodes[j].(position := b.nodes[j].position) == b.nodes[j];
    }
  }

  lemma SameShapeKeepsHeights(a: Patch, b: Patch, j: nat, layout: LayoutConstants)
    requires SameShape(a, b) && j < |a.nodes|
    ensures NodeHeight(b.nodes[j], layout) == NodeHeight(a.nodes[j], layout)
  {
    assert b.nodes[j].inputs == a.nodes[j].inputs && b.nodes[j].outputs == a.nodes[j].outputs;
  }

  // ---- Hit testing ----

  /** Scans nodes `k-1` down to `0` and returns the first node-level hit. */
  function HitTestBelow(patch: Patch, p: Point, layout: LayoutConstants, k: nat): (r: Option<Hit>)
    requires k <= |patch.nodes|
    ensures r.Some? ==>
              && r.value.nodeIndex < k
              && r == NodeHitTest(patch.nodes[r.value.nodeIndex], r.value.nodeIndex, p, layout)
              && forall j :: r.value.nodeIndex < j < k ==> NodeHitTest(patch.nodes[j], j, p, layout).None?
    ensures r.None? <==> forall j :: 0 <= j < k ==> NodeHitTest(patch.nodes[j], j, p, layout).None?
  {
    if k == 0 then None
    else
      var h := NodeHitTest(patch.nodes[k - 1], k - 1, p, layout);
      if h.Some? then h else HitTestBelow(patch, p, layout, k - 1)
  }

  /**
   The patch hit test of Patch+Gestures.swift: the highest-index node whose
   own hit test finds something decides, so later nodes shadow earlier ones.
   */
  function HitTest(patch: Patch, p: Point, layout: LayoutConstants): (r: Option<Hit>)
    ensures r.Some? ==>
              && r.value.nodeIndex < |patch.nodes|
              && r == NodeHitTest(patch.nodes[r.value.nodeIndex], r.value.nodeIndex, p, layout)
              && forall j :: r.value.nodeIndex < j < |patch.nodes| ==> NodeHitTest(patch.nodes[j], j, p, layout).None?
    ensures r.None? <==> forall j :: 0 <= j < |patch.nodes| ==> NodeHitTest(patch.nodes[j], j, p, layout).None?
  {
    HitTestBelow(patch, p, layout, |patch.nodes|)
  }

  /** The result type of the older hit test, with an explicit background case. */
  datatype HitTestResult =
    | HitNode(nodeIndex: NodeIndex)
    | HitInput(nodeIndex: NodeIndex, portIndex: PortIndex)
    | HitOutput(nodeIndex: NodeIndex, portIndex: PortIndex)
    | Background

  /** Reads an optional hit as the older result type, with nothing found as the background. */
  function WithBackground(h: Option<Hit>): HitTestResult {
    match h
    case None => Background
    case Some(NodeHit(i)) => HitNode(i)
    case Some(InputHit(i, k)) => HitInput(i, k)
    case Some(OutputHit(i, k)) => HitOutput(i, k)
  }

  /** The older hit test's loop over a node's inputs, from the first: the first input containing the point. */
  method ScanInputs(node: Node, p: Point, layout: LayoutConstants) returns (r: Option<PortIndex>)
    ensures r == FirstInput(node, p, layout, None)
  {
    var inputIndex := 0;
    while inputIndex < |node.inputs|
      invariant inputIndex <= |node.inputs|
      invariant FirstInput(node, p, layout, None) == FirstInputFrom(node, p, layout, None, inputIndex)
    {
      FirstFromStep(node, p, layout, inputIndex);
      if Contains(InputRect(node, inputIndex, layout), p) {
        return Some(inputIndex);
      }
      inputIndex := inputIndex + 1;
    }
    return None;
  }

  /** The older hit test's loop over a node's outputs, from the first: the first output containing the point. */
  method ScanOutputs(node: Node, p: Point, layout: LayoutConstants) returns (r: Option<PortIndex>)
    ensures r == FirstOutput(node, p, layout)
  {
    var outputIndex := 0;
    while outputIndex < |node.outputs|
      invariant outputIndex <= |node.outputs|
      invariant FirstOutput(node, p, layout) == FirstOutputFrom(node, p, layout, outputIndex)
    {
      FirstFromStep(node, p, layout, outputIndex);
      if Contains(OutputRect(node, outputIndex, layout), p) {
        return Some(outputIndex);
      }
      outputIndex := outputIndex + 1;
    }
    return None;
  }

  /**
   One node's turn in the older hit test's loops: its inputs from the first,
   then its outputs, then its body. It finds what the node-level hit test finds.
   */
  method ScanNode(node: Node, nodeIndex: NodeIndex, p: Point, layout: LayoutConstants) returns (r: Option<Hit>)
    ensures r == NodeHitTest(node, nodeIndex, p, layout)
  {
    var input := ScanInputs(node, p, layout);
    if input.Some? {
      return Some(InputHit(nodeIndex, input.value));
    }
    var output := ScanOutputs(node, p, layout);
    if output.Some? {
      return Some(OutputHit(nodeIndex, output.value));
    }
    if Contains(NodeRect(node, layout), p) {
      return Some(NodeHit(nodeIndex));
    }
    return None;
  }

  /** One step of the port searches: port `k` is taken when it contains the point, and skipped otherwise. */
  lemma FirstFromStep(node: Node, p: Point, layout: LayoutConstants, k: nat)
    ensures k < |node.inputs| ==>
              FirstInputFrom(node, p, layout, None, k)
              == if Contains(InputRect(node, k, layout), p) then Some(k) else FirstInputFrom(node, p, layout, None, k + 1)
    ensures k < |node.outputs| ==>
              FirstOutputFrom(node, p, layout, k)
              == if Contains(OutputRect(node, k, layout), p) then Some(k) else FirstOutputFrom(node, p, layout, k + 1)
  {
  }

  /** One step of the node loop: node `k - 1` decides when its own hit test finds something. */
  lemma HitTestBelowStep(patch: Patch, p: Point, layout: LayoutConstants, k: nat)
    requires 0 < k <= |patch.nodes|
    ensures HitTestBelow(patch, p, layout, k)
            == if NodeHitTest(patch.nodes[k - 1], k - 1, p, layout).Some? then NodeHitTest(patch.nodes[k - 1], k - 1, p, layout)
               else HitTestBelow(patch, p, layout, k - 1)
  {
  }

  /**
   The older hit test of Patch.swift, written as its loops are: nodes from the
   last down, each scanned as above. It agrees with the optional-returning hit
   test, the background standing for nothing found.
   */
  method HitTestWithBackground(patch: Patch, p: Point, layout: LayoutConstants) returns (r: HitTestResult)
    ensures r == WithBackground(HitTest(patch, p, layout))
    ensures r.Background? <==> forall j :: 0 <= j < |patch.nodes| ==> NodeHitTest(patch.nodes[j], j, p, layout).None?
  {
    var nodeIndex: nat := |patch.nodes|;
    while nodeIndex > 0
      invariant nodeIndex <= |patch.nodes|
      invariant HitTest(patch, p, layout) == HitTestBelow(patch, p, layout, nodeIndex)
    {
      nodeIndex := nodeIndex - 1;
      var h := ScanNode(patch.nodes[nodeIndex], nodeIndex, p, layout);
      HitTestBelowStep(patch, p, layout, nodeIndex + 1);
      if h.Some? {
        return WithBackground(h);
      }
    }
    return Background;
  }

  // ---- Moving and selecting ----

  /**
   `moveNode`: a locked node stays put and nothing is reported; otherwise the
   node is translated and its new position reported once. Nothing else changes.
   */
  function MoveNode(patch: Patch, nodeIndex: NodeIndex, offset: Size): (r: Edit)
    requires nodeIndex < |patch.nodes|
    ensures SameShape(patch, r.patch)
    ensures forall j :: 0 <= j < |patch.nodes| && j != nodeIndex ==> r.patch.nodes[j] == patch.nodes[j]
    ensures patch.nodes[nodeIndex].locked ==> r == Edit(patch, [])
    ensures !patch.nodes[nodeIndex].locked ==>
              && r.patch.nodes[nodeIndex] == Translate(patch.nodes[nodeIndex], offset)
              && r.events == [NodeMoved(nodeIndex, r.patch.nodes[nodeIndex].position)]
  {
    if patch.nodes[nodeIndex].locked then Edit(patch, [])
    else
      var moved := Translate(patch.nodes[nodeIndex], offset);
      Edit(patch.(nodes := patch.nodes[nodeIndex := moved]), [NodeMoved(nodeIndex, moved.position)])
  }

  function SelectedBelow(patch: Patch, rect: Rect, layout: LayoutConstants, k: nat): (s: set<NodeIndex>)
    requires k <= |patch.nodes|
    ensures forall i: nat :: i in s <==> i < k && Intersects(rect, NodeRect(patch.nodes[i], layout))
  {
    if k == 0 then {}
    else
      SelectedBelow(patch, rect, layout, k - 1)
        + (if Intersects(rect, NodeRect(patch.nodes[k - 1], layout)) then {k - 1} else {})
  }

  /** `selected(in:)`: exactly the indices of the nodes whose rectangle meets `rect`. */
  function Selected(patch: Patch, rect: Rect, layout: LayoutConstants): (s: set<NodeIndex>)
    ensures forall i: nat :: i in s <==> i < |patch.nodes| && Intersects(rect, NodeRect(patch.nodes[i], layout))
  {
    SelectedBelow(patch, rect, layout, |patch.nodes|)
  }
}
