/**
 Nodes (Node.swift), their geometry (Node+Layout.swift) and the node-level
 hit test (Node.swift and Node+Gestures.swift, two identical revisions of
 `translate(by:)` and `hitTest`, modelled once).
 */
module Nodes {
  import opened Options
  import opened Geometry
  import opened Ports

  /**
   The layout geometry. The source's constants record lacks `nodeSpacing`
   although both layout algorithms read it, so it is a field here.
   */
  datatype LayoutConstants = LayoutConstants(
    portSize: Size,
    portSpacing: real,
    nodeWidth: real,
    nodeTitleHeight: real,
    nodeSpacing: real)

  /** The source's default constants; it gives no value for the node spacing. */
  function DefaultLayout(nodeSpacing: real): LayoutConstants {
    LayoutConstants(Size(20.0, 20.0), 10.0, 200.0, 40.0, nodeSpacing)
  }

  /**
   Constants under which the drawing is well formed: ports have area, rows are
   separated, and an input and an output fit side by side in a node.
   */
  predicate SaneLayout(layout: LayoutConstants) {
    && layout.portSize.width > 0.0
    && layout.portSize.height > 0.0
    && layout.portSpacing > 0.0
    && layout.nodeTitleHeight >= 0.0
    && layout.nodeWidth >= 2.0 * layout.portSpacing + 2.0 * layout.portSize.width
  }

  lemma DefaultLayoutIsSane(nodeSpacing: real)
    ensures SaneLayout(DefaultLayout(nodeSpacing))
  {
  }

  datatype Node = Node(
    name: string,
    position: Point,
    locked: bool,
    inputs: seq<Port>,
    outputs: seq<Port>)

  /** `Node(name:position:locked:inputs:outputs:)` with ports given in full. */
  function MakeNode(name: string, position: Point := Origin, locked: bool := false,
                    inputs: seq<Port> := [], outputs: seq<Port> := []): Node
  {
    Node(name, position, locked, inputs, outputs)
  }

  /** The initialiser taking port names: one signal port per name, in order. */
  function MakeNodeNamed(name: string, position: Point := Origin, locked: bool := false,
                         inputs: seq<string> := [], outputs: seq<string> := []): (n: Node)
    ensures |n.inputs| == |inputs| && |n.outputs| == |outputs|
    ensures forall k :: 0 <= k < |inputs| ==> n.inputs[k].name == inputs[k] && n.inputs[k].portType == Signal
    ensures forall k :: 0 <= k < |outputs| ==> n.outputs[k].name == outputs[k] && n.outputs[k].portType == Signal
  {
    Node(name, position, locked,
         seq(|inputs|, k requires 0 <= k < |inputs| => MakePort(inputs[k])),
         seq(|outputs|, k requires 0 <= k < |outputs| => MakePort(outputs[k])))
  }

  lemma InitialisersDefaultUnlocked(name: string)
    ensures !MakeNode(name).locked && !MakeNodeNamed(name).locked
    ensures MakeNode(name).position == Origin && MakeNodeNamed(name).position == Origin
  {
  }

  /** `translate(by:)`: only the position changes, and the lock is not consulted. */
  function Translate(n: Node, offset: Size): (r: Node)
    ensures r.(position := n.position) == n
    ensures Sub(r.position, n.position) == offset
  {
    n.(position := Add(n.position, offset))
  }

  lemma {:induction false} TranslateCompose(n: Node, a: Size, b: Size)
    ensures Translate(Translate(n, a), b) == Translate(n, AddSizes(a, b))
  {
  }

  // ---- Geometry (Node+Layout.swift) ----

  /** The number of port rows: the longer of the two port lists. */
  function PortRows(n: Node): nat {
    if |n.inputs| >= |n.outputs| then |n.inputs| else |n.outputs|
  }

  /** The node's bounding rectangle. */
  function NodeRect(n: Node, layout: LayoutConstants): Rect {
    var rows := PortRows(n) as real;
    Rect(n.position,
         Size(layout.nodeWidth,
              rows * (layout.portSize.height + layout.portSpacing) + layout.nodeTitleHeight + layout.portSpacing))
  }

  function NodeHeight(n: Node, layout: LayoutConstants): real {
    NodeRect(n, layout).size.height
  }

  /** Vertical offset, within the node, of port row `i`. */
  function PortRowY(i: PortIndex, layout: LayoutConstants): real {
    layout.nodeTitleHeight + (i as real) * (layout.portSize.height + layout.portSpacing) + layout.portSpacing
  }

  /** Input `i`: down the left edge, below the title bar. */
  function InputRect(n: Node, i: PortIndex, layout: LayoutConstants): Rect {
    Rect(Add(n.position, Size(layout.portSpacing, PortRowY(i, layout))), layout.portSize)
  }

  /** Output `i`: down the right edge, level with input `i`. */
  function OutputRect(n: Node, i: PortIndex, layout: LayoutConstants): Rect {
    Rect(Add(n.position, Size(layout.nodeWidth - layout.portSpacing - layout.portSize.width, PortRowY(i, layout))),
         layout.portSize)
  }

  /** The values pinned by the library's layout test, for a one-in, one-out node at (400, 100). */
  lemma LayoutTestRects(nodeSpacing: real)
    ensures var processor := MakeNode("processor", Point(400.0, 100.0),
                                      inputs := [MakePort("in", Signal)],
                                      outputs := [MakePort("out", Signal)]);
            var layout := DefaultLayout(nodeSpacing);
            && NodeRect(processor, layout) == Rect(Point(400.0, 100.0), Size(200.0, 80.0))
            && InputRect(processor, 0, layout) == Rect(Point(410.0, 150.0), Size(20.0, 20.0))
            && OutputRect(processor, 0, layout) == Rect(Point(570.0, 150.0), Size(20.0, 20.0))
  {
  }

  /** Consecutive rows are exactly one port height plus one spacing apart; outputs sit level with inputs. */
  lemma PortRowsStacked(n: Node, i: PortIndex, layout: LayoutConstants)
    ensures InputRect(n, i + 1, layout) == Offset(InputRect(n, i, layout), Size(0.0, layout.portSize.height + layout.portSpacing))
    ensures OutputRect(n, i + 1, layout) == Offset(OutputRect(n, i, layout), Size(0.0, layout.portSize.height + layout.portSpacing))
    ensures OutputRect(n, i, layout).origin.y == InputRect(n, i, layout).origin.y
  {
  }

  /** A later row starts at least one row pitch below an earlier one. */
  lemma PortRowYMonotone(j: PortIndex, k: PortIndex, layout: LayoutConstants)
    requires j < k
    requires layout.portSize.height + layout.portSpacing >= 0.0
    ensures PortRowY(j, layout) + layout.portSize.height + layout.portSpacing <= PortRowY(k, layout)
  {
    var pitch := layout.portSize.height + layout.portSpacing;
    var d := (k - j) as real;
    assert (k as real) * pitch == (j as real) * pitch + d * pitch;
    ScaleAtLeastOnce(d, pitch);
  }

  lemma ScaleAtLeastOnce(d: real, c: real)
    requires d >= 1.0 && c >= 0.0
    ensures d * c >= c
  {
    assert d * c == c + (d - 1.0) * c;
  }

  /** With positive spacing, two different rows of ports never overlap. */
  lemma PortRowsDisjoint(n: Node, j: PortIndex, k: PortIndex, layout: LayoutConstants)
    requires j != k
    requires layout.portSize.height >= 0.0 && layout.portSpacing > 0.0
    ensures !Intersects(InputRect(n, j, layout), InputRect(n, k, layout))
    ensures !Intersects(OutputRect(n, j, layout), OutputRect(n, k, layout))
  {
    if j < k {
      PortRowYMonotone(j, k, layout);
    } else {
      PortRowYMonotone(k, j, layout);
    }
  }

  /** Every port row the node draws lies inside the node's rectangle. */
  lemma PortsWithinNode(n: Node, k: PortIndex, layout: LayoutConstants)
    requires SaneLayout(layout)
    requires k < PortRows(n)
    ensures Within(InputRect(n, k, layout), NodeRect(n, layout))
    ensures Within(OutputRect(n, k, layout), NodeRect(n, layout))
  {
    var body := NodeRect(n, layout);
    NodeRectRows(n, layout);
    RowBelowBody(PortRows(n) as real, k as real, layout.portSize.height, layout.portSpacing);
    assert PortRowY(k, layout) + layout.portSize.height <= body.size.height;
    assert MinY(body) == n.position.y && MaxY(body) == n.position.y + body.size.height;
    assert MinX(body) == n.position.x && MaxX(body) == n.position.x + layout.nodeWidth;
  }

  /** Arithmetic behind `PortsWithinNode`: row `k` of `rows` ends above the bottom of the body. */
  lemma RowBelowBody(rows: real, k: real, h: real, sp: real)
    requires k >= 0.0 && rows >= k + 1.0 && h > 0.0 && sp > 0.0
    ensures k * (h + sp) >= 0.0
    ensures k * (h + sp) + sp + h <= rows * (h + sp) + sp
  {
    NonNegativeProduct(k, h + sp);
    ScaleAtLeastOnce(rows - k, h + sp);
    assert rows * (h + sp) == k * (h + sp) + (rows - k) * (h + sp);
  }

  lemma NodeRectRows(n: Node, layout: LayoutConstants)
    ensures NodeRect(n, layout).origin == n.position
    ensures NodeRect(n, layout).size.width == layout.nodeWidth
    ensures NodeRect(n, layout).size.height
            == (PortRows(n) as real) * (layout.portSize.height + layout.portSpacing) + layout.nodeTitleHeight + layout.portSpacing
  {
  }

  lemma NonNegativeProduct(a: real, b: real)
    requires a >= 0.0 && b >= 0.0
    ensures a * b >= 0.0
  {
  }

  /** Translating a node moves its rectangle and every port rectangle by the same offset. */
  lemma TranslateMovesRects(n: Node, d: Size, k: PortIndex, layout: LayoutConstants)
    ensures NodeRect(Translate(n, d), layout) == Offset(NodeRect(n, layout), d)
    ensures InputRect(Translate(n, d), k, layout) == Offset(InputRect(n, k, layout), d)
    ensures OutputRect(Translate(n, d), k, layout) == Offset(OutputRect(n, k, layout), d)
  {
  }

  // ---- Port search and the node hit test ----

  /** What a hit test can find under a point (the source's `Patch.HitTestResult`). */
  datatype Hit =
    | NodeHit(nodeIndex: NodeIndex)
    | InputHit(nodeIndex: NodeIndex, portIndex: PortIndex)
    | OutputHit(nodeIndex: NodeIndex, portIndex: PortIndex)

  /** A port passes the type filter; no filter admits every type. */
  predicate TypeMatches(port: Port, filter: Option<PortType>) {
    filter.None? || port.portType == filter.value
  }

  /** Input `j` exists, passes the filter and contains `p`. */
  predicate InputMatches(n: Node, j: nat, p: Point, layout: LayoutConstants, filter: Option<PortType>) {
    j < |n.inputs| && TypeMatches(n.inputs[j], filter) && Contains(InputRect(n, j, layout), p)
  }

  /** Output `j` exists and contains `p`. */
  predicate OutputMatches(n: Node, j: nat, p: Point, layout: LayoutConstants) {
    j < |n.outputs| && Contains(OutputRect(n, j, layout), p)
  }

  predicate NoInputMatches(n: Node, p: Point, layout: LayoutConstants, filter: Option<PortType>) {
    forall j :: 0 <= j < |n.inputs| ==> !InputMatches(n, j, p, layout, filter)
  }

  predicate NoOutputMatches(n: Node, p: Point, layout: LayoutConstants) {
    forall j :: 0 <= j < |n.outputs| ==> !OutputMatches(n, j, p, layout)
  }

  function FirstInputFrom(n: Node, p: Point, layout: LayoutConstants, filter: Option<PortType>, k: nat): (r: Option<PortIndex>)
    requires k <= |n.inputs|
    ensures r.Some? ==> k <= r.value && InputMatches(n, r.value, p, layout, filter)
    ensures r.Some? ==> forall j :: k <= j < r.value ==> !InputMatches(n, j, p, layout, filter)
    ensures r.None? <==> forall j :: k <= j < |n.inputs| ==> !InputMatches(n, j, p, layout, filter)
    decreases |n.inputs| - k
  {
    if k == |n.inputs| then None
    else if InputMatches(n, k, p, layout, filter) then Some(k)
    else FirstInputFrom(n, p, layout, filter, k + 1)
  }

  /**
   `findInput(node:point:type:)`, and with no filter the input loop of the node
   hit test: the lowest input passing the filter whose rectangle contains `p`.
   */
  function FirstInput(n: Node, p: Point, layout: LayoutConstants, filter: Option<PortType>): (r: Option<PortIndex>)
    ensures r.Some? ==> InputMatches(n, r.value, p, layout, filter)
    ensures r.Some? ==> forall j :: 0 <= j < r.value ==> !InputMatches(n, j, p, layout, filter)
    ensures r.None? <==> NoInputMatches(n, p, layout, filter)
  {
    FirstInputFrom(n, p, layout, filter, 0)
  }

  function FirstOutputFrom(n: Node, p: Point, layout: LayoutConstants, k: nat): (r: Option<PortIndex>)
    requires k <= |n.outputs|
    ensures r.Some? ==> k <= r.value && OutputMatches(n, r.value, p, layout)
    ensures r.Some? ==> forall j :: k <= j < r.value ==> !OutputMatches(n, j, p, layout)
    ensures r.None? <==> forall j :: k <= j < |n.outputs| ==> !OutputMatches(n, j, p, layout)
    decreases |n.outputs| - k
  {
    if k == |n.outputs| then None
    else if OutputMatches(n, k, p, layout) then Some(k)
    else FirstOutputFrom(n, p, layout, k + 1)
  }

  /** `findOutput(node:point:)`: the lowest output whose rectangle contains `p`. */
  function FirstOutput(n: Node, p: Point, layout: LayoutConstants): (r: Option<PortIndex>)
    ensures r.Some? ==> OutputMatches(n, r.value, p, layout)
    ensures r.Some? ==> forall j :: 0 <= j < r.value ==> !OutputMatches(n, j, p, layout)
    ensures r.None? <==> NoOutputMatches(n, p, layout)
  {
    FirstOutputFrom(n, p, layout, 0)
  }

  /**
   The node-level hit test: inputs first, then outputs, then the body; the
   lowest matching port wins, and the result names the node index it was given.
   */
  function NodeHitTest(n: Node, nodeIndex: NodeIndex, p: Point, layout: LayoutConstants): (r: Option<Hit>)
    ensures r.Some? ==> r.value.nodeIndex == nodeIndex
    ensures r.Some? && r.value.InputHit? ==>
              && InputMatches(n, r.value.portIndex, p, layout, None)
              && forall j :: 0 <= j < r.value.portIndex ==> !InputMatches(n, j, p, layout, None)
    ensures r.Some? && r.value.OutputHit? ==>
              && OutputMatches(n, r.value.portIndex, p, layout)
              && forall j :: 0 <= j < r.value.portIndex ==> !OutputMatches(n, j, p, layout)
    ensures (r.Some? && r.value.InputHit?) <==> !NoInputMatches(n, p, layout, None)
    ensures (r.Some? && r.value.OutputHit?) <==> NoInputMatches(n, p, layout, None) && !NoOutputMatches(n, p, layout)
    ensures (r.Some? && r.value.NodeHit?) <==>
              NoInputMatches(n, p, layout, None) && NoOutputMatches(n, p, layout) && Contains(NodeRect(n, layout), p)
    ensures r.None? <==>
              NoInputMatches(n, p, layout, None) && NoOutputMatches(n, p, layout) && !Contains(NodeRect(n, layout), p)
  {
    match FirstInput(n, p, layout, None)
    case Some(k) => Some(InputHit(nodeIndex, k))
    case None =>
      match FirstOutput(n, p, layout)
      case Some(k) => Some(OutputHit(nodeIndex, k))
      case None => if Contains(NodeRect(n, layout), p) then Some(NodeHit(nodeIndex)) else None
  }

  /** Under sane constants every port lies inside the body, so a node is hit exactly where its body is. */
  lemma NodeHitExactlyInBody(n: Node, nodeIndex: NodeIndex, p: Point, layout: LayoutConstants)
    requires SaneLayout(layout)
    ensures NodeHitTest(n, nodeIndex, p, layout).Some? <==> Contains(NodeRect(n, layout), p)
  {
    var r := NodeHitTest(n, nodeIndex, p, layout);
    if r.Some? && r.value.InputHit? {
      PortsWithinNode(n, r.value.portIndex, layout);
      WithinContains(InputRect(n, r.value.portIndex, layout), NodeRect(n, layout), p);
    } else if r.Some? && r.value.OutputHit? {
      PortsWithinNode(n, r.value.portIndex, layout);
      WithinContains(OutputRect(n, r.value.portIndex, layout), NodeRect(n, layout), p);
    }
  }

  /** Port `j` matches the moved point on the moved node exactly when it matches before the move. */
  lemma MatchesTranslate(n: Node, p: Point, d: Size, layout: LayoutConstants, filter: Option<PortType>, j: nat)
    ensures InputMatches(Translate(n, d), j, Add(p, d), layout, filter) == InputMatches(n, j, p, layout, filter)
    ensures OutputMatches(Translate(n, d), j, Add(p, d), layout) == OutputMatches(n, j, p, layout)
  {
    TranslateMovesRects(n, d, j, layout);
    OffsetContains(InputRect(n, j, layout), p, d);
    OffsetContains(OutputRect(n, j, layout), p, d);
  }

  lemma {:induction false} FirstInputFromTranslates(n: Node, p: Point, d: Size, layout: LayoutConstants, filter: Option<PortType>, k: nat)
    requires k <= |n.inputs|
    ensures FirstInputFrom(Translate(n, d), Add(p, d), layout, filter, k) == FirstInputFrom(n, p, layout, filter, k)
    decreases |n.inputs| - k
  {
    assert Translate(n, d).inputs == n.inputs;
    if k < |n.inputs| {
      MatchesTranslate(n, p, d, layout, filter, k);
      if InputMatches(n, k, p, layout, filter) {
        assert FirstInputFrom(n, p, layout, filter, k) == Some(k);
      } else {
        FirstInputFromTranslates(n, p, d, layout, filter, k + 1);
        assert FirstInputFrom(n, p, layout, filter, k) == FirstInputFrom(n, p, layout, filter, k + 1);
      }
    }
  }

  lemma {:induction false} FirstOutputFromTranslates(n: Node, p: Point, d: Size, layout: LayoutConstants, k: nat)
    requires k <= |n.outputs|
    ensures FirstOutputFrom(Translate(n, d), Add(p, d), layout, k) == FirstOutputFrom(n, p, layout, k)
    decreases |n.outputs| - k
  {
    assert Translate(n, d).outputs == n.outputs;
    if k < |n.outputs| {
      MatchesTranslate(n, p, d, layout, None, k);
      if !OutputMatches(n, k, p, layout) {
        FirstOutputFromTranslates(n, p, d, layout, k + 1);
      }
    }
  }

  /** Moving a node and the probe point together leaves the hit test's answer unchanged. */
  lemma NodeHitTestTranslates(n: Node, nodeIndex: NodeIndex, p: Point, d: Size, layout: LayoutConstants)
    ensures NodeHitTest(Translate(n, d), nodeIndex, Add(p, d), layout) == NodeHitTest(n, nodeIndex, p, layout)
  {
    FirstInputFromTranslates(n, p, d, layout, None, 0);
    FirstOutputFromTranslates(n, p, d, layout, 0);
    TranslateMovesRects(n, d, 0, layout);
    OffsetContains(NodeRect(n, layout), p, d);
  }
}
