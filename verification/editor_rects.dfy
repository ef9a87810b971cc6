/**
 The editor's geometric queries (NodeEditor+Rects.swift): the live offset of a
 node during a drag, and the searches for an input, an output or a node under
 a point. Each search walks the nodes from the highest index down, so a node
 drawn on top is found first.
 */
module EditorRects {
  import opened Options
  import opened Geometry
  import opened Ports
  import opened Wires
  import opened Nodes
  import opened Patches

  /**
   The transient state of a drag (`NodeEditor.DragInfo`): a wire being drawn
   from an output, possibly hiding the wire it reroutes; a node being moved; a
   rubber-band selection; or nothing.
   */
  datatype DragInfo =
    | WireDrag(output: OutputID, offset: Size, hideWire: Option<Wire>)
    | NodeDrag(index: NodeIndex, offset: Size)
    | SelectionDrag(rect: Rect)
    | NoDrag

  /** The editor's selection: a set of node indices. */
  type Selection = set<NodeIndex>

  /** Node `j` moves with a drag of node `i`: it is `i`, or both are selected. */
  predicate MovesWith(selection: Selection, i: NodeIndex, j: NodeIndex) {
    j == i || (i in selection && j in selection)
  }

  /**
   `offset(for:)`: how far node `idx` is drawn from its position during a
   drag. A locked node never moves; during a node drag the dragged node and,
   when it is selected, every other selected node follow the pointer; every
   other state moves nothing.
   */
  function DragOffset(patch: Patch, selection: Selection, dragInfo: DragInfo, idx: NodeIndex): (r: Size)
    requires idx < |patch.nodes|
    ensures patch.nodes[idx].locked ==> r == ZeroSize
    ensures !dragInfo.NodeDrag? ==> r == ZeroSize
    ensures dragInfo.NodeDrag? && !patch.nodes[idx].locked ==>
              r == (if MovesWith(selection, dragInfo.index, idx) then dragInfo.offset else ZeroSize)
  {
    if patch.nodes[idx].locked then ZeroSize
    else
      match dragInfo
      case NodeDrag(index, offset) =>
        if idx == index then offset
        else if index in selection && idx in selection then offset
        else ZeroSize
      case _ => ZeroSize
  }

  // ---- Searching the patch ----

  /** Scans nodes `k-1` down to `0` for an input under `p` that passes the filter. */
  function FindInputBelow(patch: Patch, p: Point, layout: LayoutConstants, filter: Option<PortType>, k: nat)
    : (r: Option<InputID>)
    requires k <= |patch.nodes|
    ensures r.Some? ==>
              && r.value.nodeIndex < k
              && FirstInput(patch.nodes[r.value.nodeIndex], p, layout, filter) == Some(r.value.portIndex)
              && forall j :: r.value.nodeIndex < j < k ==> FirstInput(patch.nodes[j], p, layout, filter).None?
    ensures r.None? <==> forall j :: 0 <= j < k ==> FirstInput(patch.nodes[j], p, layout, filter).None?
  {
    if k == 0 then None
    else
      match FirstInput(patch.nodes[k - 1], p, layout, filter)
      case Some(port) => Some(InputID(k - 1, port))
      case None => FindInputBelow(patch, p, layout, filter, k - 1)
  }

  /**
   `findInput(point:type:)`: the input under `p` on the topmost node that has
   one passing the filter. The gesture code calls it with no type, which the
   empty filter stands for.
   */
  function FindInput(patch: Patch, p: Point, layout: LayoutConstants, filter: Option<PortType>): (r: Option<InputID>)
    ensures r.Some? ==>
              && r.value.nodeIndex < |patch.nodes|
              && InputMatches(patch.nodes[r.value.nodeIndex], r.value.portIndex, p, layout, filter)
              && forall j :: r.value.nodeIndex < j < |patch.nodes| ==>
                   NoInputMatches(patch.nodes[j], p, layout, filter)
    ensures r.None? <==> forall j :: 0 <= j < |patch.nodes| ==> NoInputMatches(patch.nodes[j], p, layout, filter)
  {
    FindInputBelow(patch, p, layout, filter, |patch.nodes|)
  }

  /** Scans nodes `k-1` down to `0` for an output under `p`. */
  function FindOutputBelow(patch: Patch, p: Point, layout: LayoutConstants, k: nat): (r: Option<OutputID>)
    requires k <= |patch.nodes|
    ensures r.Some? ==>
              && r.value.nodeIndex < k
              && FirstOutput(patch.nodes[r.value.nodeIndex], p, layout) == Some(r.value.portIndex)
              && forall j :: r.value.nodeIndex < j < k ==> FirstOutput(patch.nodes[j], p, layout).None?
    ensures r.None? <==> forall j :: 0 <= j < k ==> FirstOutput(patch.nodes[j], p, layout).None?
  {
    if k == 0 then None
    else
      match FirstOutput(patch.nodes[k - 1], p, layout)
      case Some(port) => Some(OutputID(k - 1, port))
      case None => FindOutputBelow(patch, p, layout, k - 1)
  }

  /** `findOutput(point:)`: the output under `p` on the topmost node that has one. */
  function FindOutput(patch: Patch, p: Point, layout: LayoutConstants): (r: Option<OutputID>)
    ensures r.Some? ==>
              && r.value.nodeIndex < |patch.nodes|
              && OutputMatches(patch.nodes[r.value.nodeIndex], r.value.portIndex, p, layout)
              && forall j :: r.value.nodeIndex < j < |patch.nodes| ==> NoOutputMatches(patch.nodes[j], p, layout)
    ensures r.None? <==> forall j :: 0 <= j < |patch.nodes| ==> NoOutputMatches(patch.nodes[j], p, layout)
  {
    FindOutputBelow(patch, p, layout, |patch.nodes|)
  }

  /** Scans nodes `k-1` down to `0` for a body containing `p`. */
  function FindNodeBelow(patch: Patch, p: Point, layout: LayoutConstants, k: nat): (r: Option<NodeIndex>)
    requires k <= |patch.nodes|
    ensures r.Some? ==>
              && r.value < k
              && Contains(NodeRect(patch.nodes[r.value], layout), p)
              && forall j :: r.value < j < k ==> !Contains(NodeRect(patch.nodes[j], layout), p)
    ensures r.None? <==> forall j :: 0 <= j < k ==> !Contains(NodeRect(patch.nodes[j], layout), p)
  {
    if k == 0 then None
    else if Contains(NodeRect(patch.nodes[k - 1], layout), p) then Some(k - 1)
    else FindNodeBelow(patch, p, layout, k - 1)
  }

  /** `findNode(point:)`: the topmost node whose body contains `p`; ports play no part. */
  function FindNode(patch: Patch, p: Point, layout: LayoutConstants): (r: Option<NodeIndex>)
    ensures r.Some? ==>
              && r.value < |patch.nodes|
              && Contains(NodeRect(patch.nodes[r.value], layout), p)
              && forall j :: r.value < j < |patch.nodes| ==> !Contains(NodeRect(patch.nodes[j], layout), p)
    ensures r.None? <==> forall j :: 0 <= j < |patch.nodes| ==> !Contains(NodeRect(patch.nodes[j], layout), p)
  {
    FindNodeBelow(patch, p, layout, |patch.nodes|)
  }

  // ---- The searches against the hit test ----

  /** The lowest matching input is determined by which inputs match. */
  lemma FirstInputIs(n: Node, p: Point, layout: LayoutConstants, filter: Option<PortType>, k: nat)
    requires InputMatches(n, k, p, layout, filter)
    requires forall j :: 0 <= j < k ==> !InputMatches(n, j, p, layout, filter)
    ensures FirstInput(n, p, layout, filter) == Some(k)
  {
    var r := FirstInput(n, p, layout, filter);
    assert r.Some?;
    assert !(r.value < k) && !(k < r.value);
  }

  /** The lowest matching output is determined by which outputs match. */
  lemma FirstOutputIs(n: Node, p: Point, layout: LayoutConstants, k: nat)
    requires OutputMatches(n, k, p, layout)
    requires forall j :: 0 <= j < k ==> !OutputMatches(n, j, p, layout)
    ensures FirstOutput(n, p, layout) == Some(k)
  {
    var r := FirstOutput(n, p, layout);
    assert r.Some?;
    assert !(r.value < k) && !(k < r.value);
  }

  /**
   Where the hit test finds an input, the untyped input search finds the same
   input: nothing above its node is hit at all.
   */
  lemma HitInputIsFoundInput(patch: Patch, p: Point, layout: LayoutConstants, n: NodeIndex, k: PortIndex)
    requires HitTest(patch, p, layout) == Some(InputHit(n, k))
    ensures FindInput(patch, p, layout, None) == Some(InputID(n, k))
  {
    FirstInputIs(patch.nodes[n], p, layout, None, k);
    var r := FindInput(patch, p, layout, None);
    assert r.Some?;
    assert !(r.value.nodeIndex < n) && !(n < r.value.nodeIndex);
  }

  /**
   Where the hit test finds an output, the output search finds the same
   output: nothing above its node is hit at all.
   */
  lemma HitOutputIsFoundOutput(patch: Patch, p: Point, layout: LayoutConstants, n: NodeIndex, k: PortIndex)
    requires HitTest(patch, p, layout) == Some(OutputHit(n, k))
    ensures FindOutput(patch, p, layout) == Some(OutputID(n, k))
  {
    FirstOutputIs(patch.nodes[n], p, layout, k);
    var r := FindOutput(patch, p, layout);
    assert r.Some?;
    assert !(r.value.nodeIndex < n) && !(n < r.value.nodeIndex);
  }

  /**
   Under sane constants the node search and the hit test agree on whether
   anything is under `p` and, if so, on which node.
   */
  lemma FindNodeAgreesWithHitTest(patch: Patch, p: Point, layout: LayoutConstants)
    requires SaneLayout(layout)
    ensures HitTest(patch, p, layout).Some? <==> FindNode(patch, p, layout).Some?
    ensures HitTest(patch, p, layout).Some? ==> HitTest(patch, p, layout).value.nodeIndex == FindNode(patch, p, layout).value
  {
    forall j | 0 <= j < |patch.nodes|
      ensures NodeHitTest(patch.nodes[j], j, p, layout).Some? <==> Contains(NodeRect(patch.nodes[j], layout), p)
    {
      NodeHitExactlyInBody(patch.nodes[j], j, p, layout);
    }
    var h := HitTest(patch, p, layout);
    var f := FindNode(patch, p, layout);
    if h.Some? && f.Some? {
      assert !(h.value.nodeIndex < f.value) && !(f.value < h.value.nodeIndex);
    }
  }

  /** The hit test finds the node that claims `p` when no node above it is hit. */
  lemma HitTestIs(patch: Patch, p: Point, layout: LayoutConstants, n: NodeIndex, h: Hit)
    requires n < |patch.nodes|
    requires NodeHitTest(patch.nodes[n], n, p, layout) == Some(h)
    requires forall j :: n < j < |patch.nodes| ==> NodeHitTest(patch.nodes[j], j, p, layout).None?
    ensures HitTest(patch, p, layout) == Some(h)
  {
    var r := HitTest(patch, p, layout);
    assert r.Some?;
    assert !(r.value.nodeIndex < n) && !(n < r.value.nodeIndex);
  }

  /** Under sane constants a node no higher body contains is hit by nothing above it. */
  lemma NothingAbove(patch: Patch, p: Point, layout: LayoutConstants, n: NodeIndex)
    requires SaneLayout(layout) && n < |patch.nodes|
    requires forall j :: n < j < |patch.nodes| ==> !Contains(NodeRect(patch.nodes[j], layout), p)
    ensures forall j :: n < j < |patch.nodes| ==> NodeHitTest(patch.nodes[j], j, p, layout).None?
  {
    forall j | n < j < |patch.nodes|
      ensures NodeHitTest(patch.nodes[j], j, p, layout).None?
    {
      NodeHitExactlyInBody(patch.nodes[j], j, p, layout);
    }
  }

  /** Under sane constants the centre of input `k` lies in input `k` and in no input above it. */
  lemma InputCentreMatches(n: Node, k: PortIndex, layout: LayoutConstants)
    requires SaneLayout(layout) && k < |n.inputs|
    ensures InputMatches(n, k, Center(InputRect(n, k, layout)), layout, None)
    ensures forall j :: 0 <= j < k ==> !InputMatches(n, j, Center(InputRect(n, k, layout)), layout, None)
  {
    ContainsCenter(InputRect(n, k, layout));
    forall j | 0 <= j < k
      ensures !InputMatches(n, j, Center(InputRect(n, k, layout)), layout, None)
    {
      PortRowYMonotone(j, k, layout);
    }
  }

  /**
   Under sane constants the centre of output `k` lies in output `k`, in no
   output above it and in no input: inputs and outputs sit in separate columns.
   */
  lemma OutputCentreMatches(n: Node, k: PortIndex, layout: LayoutConstants)
    requires SaneLayout(layout) && k < |n.outputs|
    ensures OutputMatches(n, k, Center(OutputRect(n, k, layout)), layout)
    ensures forall j :: 0 <= j < k ==> !OutputMatches(n, j, Center(OutputRect(n, k, layout)), layout)
    ensures NoInputMatches(n, Center(OutputRect(n, k, layout)), layout, None)
  {
    ContainsCenter(OutputRect(n, k, layout));
    forall j | 0 <= j < k
      ensures !OutputMatches(n, j, Center(OutputRect(n, k, layout)), layout)
    {
      PortRowYMonotone(j, k, layout);
    }
  }

  /**
   Hit round trip for inputs: the centre of input `k` of node `n` hits that
   input, provided no body above node `n` covers it.
   */
  lemma HitInputCentre(patch: Patch, n: NodeIndex, k: PortIndex, layout: LayoutConstants)
    requires SaneLayout(layout) && n < |patch.nodes| && k < |patch.nodes[n].inputs|
    requires forall j :: n < j < |patch.nodes| ==>
               !Contains(NodeRect(patch.nodes[j], layout), Center(InputRect(patch.nodes[n], k, layout)))
    ensures HitTest(patch, Center(InputRect(patch.nodes[n], k, layout)), layout) == Some(InputHit(n, k))
  {
    var c := Center(InputRect(patch.nodes[n], k, layout));
    InputCentreMatches(patch.nodes[n], k, layout);
    FirstInputIs(patch.nodes[n], c, layout, None, k);
    NothingAbove(patch, c, layout, n);
    HitTestIs(patch, c, layout, n, InputHit(n, k));
  }

  /**
   Hit round trip for outputs: the centre of output `k` of node `n` hits that
   output, provided no body above node `n` covers it.
   */
  lemma HitOutputCentre(patch: Patch, n: NodeIndex, k: PortIndex, layout: LayoutConstants)
    requires SaneLayout(layout) && n < |patch.nodes| && k < |patch.nodes[n].outputs|
    requires forall j :: n < j < |patch.nodes| ==>
               !Contains(NodeRect(patch.nodes[j], layout), Center(OutputRect(patch.nodes[n], k, layout)))
    ensures HitTest(patch, Center(OutputRect(patch.nodes[n], k, layout)), layout) == Some(OutputHit(n, k))
  {
    var c := Center(OutputRect(patch.nodes[n], k, layout));
    OutputCentreMatches(patch.nodes[n], k, layout);
    FirstOutputIs(patch.nodes[n], c, layout, k);
    NothingAbove(patch, c, layout, n);
    HitTestIs(patch, c, layout, n, OutputHit(n, k));
  }
}
