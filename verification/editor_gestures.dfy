/**
 The editor's drag gesture (NodeEditor+Gestures.swift): connecting wires,
 moving nodes, the live drag state while the pointer moves, and what is
 committed when it is released.

 The host's callbacks become returned notifications, the editor's bindings
 become parameters and results, and Swift's unordered set iteration becomes
 ascending order (wires by `WireLeq`, node indices by value).
 */
module EditorGestures {
  import opened Options
  import opened Geometry
  import opened Enumeration
  import opened Ports
  import opened Wires
  import opened Nodes
  import opened Patches
  import opened EditorRects

  // ---- Coordinates ----

  /** The canvas's pan and zoom; the canvas scales by `zoom`, then translates by `pan`. */
  datatype Viewport = Viewport(zoom: real, pan: Size)

  /** Where a canvas point is drawn on screen (the transform of NodeEditor.swift). */
  function ToScreen(v: Viewport, q: Point): Point {
    Point((q.x + v.pan.width) * v.zoom, (q.y + v.pan.height) * v.zoom)
  }

  /** `toLocal(_: CGPoint)`: a screen point in canvas coordinates. It undoes the canvas transform. */
  function ToLocal(v: Viewport, p: Point): (q: Point)
    requires v.zoom > 0.0
    ensures ToScreen(v, q) == p
  {
    Point(p.x / v.zoom - v.pan.width, p.y / v.zoom - v.pan.height)
  }

  /** `toLocal(_: CGSize)`: a screen translation in canvas units. */
  function ToLocalSize(v: Viewport, s: Size): (t: Size)
    requires v.zoom > 0.0
    ensures t.width * v.zoom == s.width && t.height * v.zoom == s.height
  {
    Size(s.width / v.zoom, s.height / v.zoom)
  }

  /** Converting a translated point is translating the converted point by the converted translation. */
  lemma ToLocalTranslates(v: Viewport, p: Point, s: Size)
    requires v.zoom > 0.0
    ensures ToLocal(v, Add(p, s)) == Add(ToLocal(v, p), ToLocalSize(v, s))
  {
    assert (p.x + s.width) / v.zoom == p.x / v.zoom + s.width / v.zoom;
    assert (p.y + s.height) / v.zoom == p.y / v.zoom + s.height / v.zoom;
  }

  /** A drag as the gesture reports it, in screen coordinates. */
  datatype DragValue = DragValue(startLocation: Point, location: Point, translation: Size)

  /**
   A release farther than 5 screen points from the start is a drag, anything
   nearer a tap. The source compares the square root of the squared distance
   with 5; for distances that is the same as comparing the square with 25.
   */
  predicate IsDrag(d: DragValue) {
    DistanceSquared(d.startLocation, d.location) > 5.0 * 5.0
  }

  // ---- Wires ----

  /** One removal notification per wire, in order. */
  function RemovalEvents(ws: seq<Wire>): (r: seq<Event>)
    ensures |r| == |ws|
    ensures forall k :: 0 <= k < |ws| ==> r[k] == WireRemoved(ws[k])
  {
    if ws == [] then [] else [WireRemoved(ws[0])] + RemovalEvents(ws[1..])
  }

  /**
   `connect(_:to:)`: every wire already into `input` is removed, each with a
   notification (the new wire itself included, if present), then the new wire
   is added and announced. Afterwards `input` has exactly that one wire, and
   every other input keeps its wires.
   */
  function Connect(patch: Patch, output: OutputID, input: InputID): (r: Edit)
    ensures r.patch.nodes == patch.nodes
    ensures forall w: Wire :: w.input == input ==> (w in r.patch.wires <==> w == Wire(output, input))
    ensures forall w: Wire :: w.input != input ==> (w in r.patch.wires <==> w in patch.wires)
  {
    var wire := Wire(output, input);
    Edit(patch.(wires := (patch.wires - WiresInto(patch.wires, input)) + {wire}),
         Removals(patch.wires, input) + [WireAdded(wire)])
  }

  /** The removal notifications of `connect`: the wires into `input`, in ascending order. */
  function Removals(wires: set<Wire>, input: InputID): seq<Event> {
    RemovalEvents(SortedWires(WiresInto(wires, input)))
  }

  /** Connecting keeps the editing invariant: at most one wire per input. */
  lemma ConnectKeepsOneWirePerInput(patch: Patch, output: OutputID, input: InputID)
    requires OneWirePerInput(patch.wires)
    ensures OneWirePerInput(Connect(patch, output, input).patch.wires)
  {
    var wires := Connect(patch, output, input).patch.wires;
    forall a, b | a in wires && b in wires && a.input == b.input
      ensures a == b
    {
      assert a in WiresInto(wires, a.input) && b in WiresInto(wires, a.input);
      if a.input != input {
        assert a in WiresInto(patch.wires, a.input) && b in WiresInto(patch.wires, a.input);
      }
    }
  }

  /** The notifications of `connect`: the removals, then the single addition. */
  lemma ConnectEvents(patch: Patch, output: OutputID, input: InputID)
    ensures var events := Connect(patch, output, input).events;
            && |events| == |Removals(patch.wires, input)| + 1
            && events[..|events| - 1] == Removals(patch.wires, input)
            && events[|events| - 1] == WireAdded(Wire(output, input))
  {
  }

  /** Each wire into `input` is announced as removed exactly once, and nothing else is. */
  lemma RemovalsExact(wires: set<Wire>, input: InputID)
    ensures var events := Removals(wires, input);
            && |events| == |WiresInto(wires, input)|
            && (forall k :: 0 <= k < |events| ==>
                  events[k].WireRemoved? && events[k].wire in wires && events[k].wire.input == input)
            && (forall w :: w in wires && w.input == input ==> WireRemoved(w) in events)
  {
    var order := SortedWires(WiresInto(wires, input));
    var events := Removals(wires, input);
    forall w | w in wires && w.input == input
      ensures WireRemoved(w) in events
    {
      assert w in WiresInto(wires, input);
      var k :| 0 <= k < |order| && order[k] == w;
      assert events[k] == WireRemoved(w);
    }
  }

  /** The removals are announced in strictly ascending wire order. */
  lemma RemovalsAscending(wires: set<Wire>, input: InputID)
    ensures var events := Removals(wires, input);
            forall j, k :: 0 <= j < k < |events| ==>
              events[j].WireRemoved? && events[k].WireRemoved? &&
              WireLeq(events[j].wire, events[k].wire) && events[j] != events[k]
  {
  }

  /**
   `attachedWire(inputID:)`: a wire into `input`, if any. With several (which
   editing never produces) the source takes the first in set order; here the
   least under `WireLeq`.
   */
  function AttachedWire(wires: set<Wire>, input: InputID): (r: Option<Wire>)
    ensures r.Some? ==> r.value in wires && r.value.input == input
    ensures r.None? <==> WiresInto(wires, input) == {}
    ensures OneWirePerInput(wires) && r.Some? ==> WiresInto(wires, input) == {r.value}
  {
    var order := SortedWires(WiresInto(wires, input));
    if order == [] then None
    else
      assert order[0] in WiresInto(wires, input);
      Some(order[0])
  }

  // ---- Moving nodes ----

  /** No index occurs twice. */
  predicate Distinct(s: seq<NodeIndex>) {
    forall a, b :: 0 <= a < b < |s| ==> s[a] != s[b]
  }

  /** Every selected index names a node. */
  predicate SelectionInRange(patch: Patch, selection: Selection) {
    forall j :: j in selection ==> j < |patch.nodes|
  }

  /**
   What moving node `i` with `selection` needs: `i` names a node and, when it
   is selected, so does every selected index, since the group move then visits
   them all and traps on any other. An unselected `i` moves alone.
   */
  predicate GroupInRange(patch: Patch, selection: Selection, i: NodeIndex) {
    i < |patch.nodes| && (i in selection ==> SelectionInRange(patch, selection))
  }

  /**
   `moveNode` applied to each index of `order` in turn. A listed unlocked node
   moves by `offset` once per listing, a locked one stays put, and nothing
   else changes.
   */
  function MoveAll(patch: Patch, order: seq<NodeIndex>, offset: Size): (r: Edit)
    requires forall k :: 0 <= k < |order| ==> order[k] < |patch.nodes|
    ensures SameShape(patch, r.patch)
    ensures forall j :: 0 <= j < |patch.nodes| && j !in order ==> r.patch.nodes[j] == patch.nodes[j]
    ensures Distinct(order) ==>
              forall j :: 0 <= j < |patch.nodes| && j in order ==>
                r.patch.nodes[j].position ==
                  (if patch.nodes[j].locked then patch.nodes[j].position else Add(patch.nodes[j].position, offset))
    decreases |order|
  {
    if order == [] then Edit(patch, [])
    else
      var first := MoveNode(patch, order[0], offset);
      var rest := MoveAll(first.patch, order[1..], offset);
      assert forall j :: j in order[1..] ==> j in order;
      assert Distinct(order) ==> Distinct(order[1..]) && order[0] !in order[1..];
      SameShapeTransitive(patch, first.patch, rest.patch);
      Edit(rest.patch, first.events + rest.events)
  }

  /** The selected indices in ascending order. */
  function SortedSelection(selection: Selection): (r: seq<NodeIndex>)
    ensures forall j :: j in r <==> j in selection
    ensures Distinct(r)
  {
    NatLeqIsTotal();
    Sorted(selection, NatLeq)
  }

  /**
   The node-drag commit: node `i` moves, and if it is selected every other
   selected node moves with it, in ascending index order. Exactly the nodes
   drawn offset during the drag move, each by the drag's translation.
   */
  function MoveGroup(patch: Patch, selection: Selection, i: NodeIndex, offset: Size): (r: Edit)
    requires GroupInRange(patch, selection, i)
    ensures SameShape(patch, r.patch)
    ensures forall j :: 0 <= j < |patch.nodes| ==>
              r.patch.nodes[j].position ==
                (if !patch.nodes[j].locked && MovesWith(selection, i, j) then Add(patch.nodes[j].position, offset)
                 else patch.nodes[j].position)
  {
    MoveAll(patch, GroupOrder(selection, i), offset)
  }

  /** The order in which a node drag moves nodes: the dragged node, then the rest of its selection. */
  function GroupOrder(selection: Selection, i: NodeIndex): (order: seq<NodeIndex>)
    ensures |order| > 0 && order[0] == i
    ensures Distinct(order)
    ensures forall j :: j in order <==> MovesWith(selection, i, j)
  {
    var others := if i in selection then SortedSelection(selection - {i}) else [];
    var order := [i] + others;
    assert Distinct(order) by {
      forall a, b | 0 <= a < b < |order|
        ensures order[a] != order[b]
      {
        if a == 0 {
          assert order[b] == others[b - 1];
        } else {
          assert order[a] == others[a - 1] && order[b] == others[b - 1];
        }
      }
    }
    assert forall j :: j in order <==> j == i || j in others;
    order
  }

  // ---- The drag ----

  /**
   While rerouting, the loose end is drawn at the wire's output centre plus
   this offset: it starts on the grabbed input's centre and then follows the
   pointer's translation.
   */
  function RerouteOffset(patch: Patch, wire: Wire, translation: Size, layout: LayoutConstants): (r: Size)
    requires wire.input.nodeIndex < |patch.nodes| && wire.output.nodeIndex < |patch.nodes|
    ensures Add(Center(OutputRect(patch.nodes[wire.output.nodeIndex], wire.output.portIndex, layout)), r)
            == Add(Center(InputRect(patch.nodes[wire.input.nodeIndex], wire.input.portIndex, layout)), translation)
  {
    var inCentre := Center(InputRect(patch.nodes[wire.input.nodeIndex], wire.input.portIndex, layout));
    var outCentre := Center(OutputRect(patch.nodes[wire.output.nodeIndex], wire.output.portIndex, layout));
    AddSizes(Sub(inCentre, outCentre), translation)
  }

  /**
   The `updating` handler: the live drag state, chosen by what lies under the
   start point. The background starts a rubber band from start to pointer; a
   node follows the translation; an output starts a new wire; an input with a
   wire picks that wire up by its loose end; an input without one keeps the
   state as it was.
   */
  function Updating(patch: Patch, layout: LayoutConstants, viewport: Viewport, drag: DragValue, dragInfo: DragInfo)
    : (r: DragInfo)
    requires WiresInRange(patch) && viewport.zoom > 0.0
    ensures var start := ToLocal(viewport, drag.startLocation);
            var translation := ToLocalSize(viewport, drag.translation);
            match HitTest(patch, start, layout)
            case None => r == SelectionDrag(FromCorners(start, ToLocal(viewport, drag.location)))
            case Some(NodeHit(i)) => r == NodeDrag(i, translation)
            case Some(OutputHit(n, k)) => r == WireDrag(OutputID(n, k), translation, None)
            case Some(InputHit(n, k)) =>
              match AttachedWire(patch.wires, InputID(n, k))
              case None => r == dragInfo
              case Some(w) =>
                && r.WireDrag? && r.output == w.output && r.hideWire == Some(w)
                && Add(Center(OutputRect(patch.nodes[w.output.nodeIndex], w.output.portIndex, layout)), r.offset)
                   == Add(Center(InputRect(patch.nodes[n], k, layout)), translation)
  {
    var start := ToLocal(viewport, drag.startLocation);
    var location := ToLocal(viewport, drag.location);
    var translation := ToLocalSize(viewport, drag.translation);
    match HitTest(patch, start, layout)
    case None => SelectionDrag(FromCorners(start, location))
    case Some(NodeHit(i)) => NodeDrag(i, translation)
    case Some(OutputHit(n, k)) => WireDrag(OutputID(n, k), translation, None)
    case Some(InputHit(n, k)) =>
      match AttachedWire(patch.wires, InputID(n, k))
      case None => dragInfo
      case Some(w) => WireDrag(w.output, RerouteOffset(patch, w, translation, layout), Some(w))
  }

  /**
   Releasing a picked-up wire: it is removed and announced, then, if the
   pointer is over an input, its output is connected there.
   */
  function Reroute(patch: Patch, wire: Wire, target: Option<InputID>): (r: Edit)
    ensures r.patch.nodes == patch.nodes
    ensures target.None? ==> r.patch.wires == patch.wires - {wire}
    ensures target.Some? ==> WiresInto(r.patch.wires, target.value) == {Wire(wire.output, target.value)}
    ensures target.Some? ==> forall i :: i != target.value ==>
              WiresInto(r.patch.wires, i) == WiresInto(patch.wires - {wire}, i)
    ensures |r.events| > 0 && r.events[0] == WireRemoved(wire)
  {
    var detached := patch.(wires := patch.wires - {wire});
    match target
    case None => Edit(detached, [WireRemoved(wire)])
    case Some(input) =>
      var connected := Connect(detached, wire.output, input);
      Edit(connected.patch, [WireRemoved(wire)] + connected.events)
  }

  /**
   What a release needs of the selection: a drag from a node reads the
   selection by index only when that node is selected, and every other
   release reads it not at all.
   */
  predicate ReleaseInRange(patch: Patch, selection: Selection, layout: LayoutConstants, viewport: Viewport,
                           drag: DragValue)
    requires viewport.zoom > 0.0
  {
    var hit := HitTest(patch, ToLocal(viewport, drag.startLocation), layout);
    IsDrag(drag) && hit.Some? && hit.value.NodeHit? ==> GroupInRange(patch, selection, hit.value.nodeIndex)
  }

  /** What a release leaves behind: the patch, the selection and the notifications fired. */
  datatype Commit = Commit(patch: Patch, selection: Selection, events: seq<Event>)

  /**
   The `onEnded` handler. A tap (release within 5 screen points) only selects:
   the background clears the selection, a node becomes the only selected one,
   a port changes nothing. A drag from the background selects exactly the
   nodes meeting the rubber band; from a node moves it (with the selection, if
   it is selected); from an output connects to the input under the pointer, if
   any; from an input with a wire detaches that wire and reconnects its output
   to the input under the pointer, if any; from an input without a wire does
   nothing.
   */
  function OnEnded(patch: Patch, selection: Selection, layout: LayoutConstants, viewport: Viewport, drag: DragValue)
    : (r: Commit)
    requires WiresInRange(patch) && viewport.zoom > 0.0 && ReleaseInRange(patch, selection, layout, viewport, drag)
    ensures r.patch.wires != patch.wires ==> IsDrag(drag)
    ensures !IsDrag(drag) ==> r.patch == patch && r.events == []
    ensures !IsDrag(drag) ==>
              match HitTest(patch, ToLocal(viewport, drag.startLocation), layout)
              case None => r.selection == {}
              case Some(NodeHit(i)) => r.selection == {i}
              case Some(_) => r.selection == selection
    ensures IsDrag(drag) ==>
              r.selection ==
                (if HitTest(patch, ToLocal(viewport, drag.startLocation), layout).None?
                 then Selected(patch, FromCorners(ToLocal(viewport, drag.startLocation),
                                                  ToLocal(viewport, drag.location)), layout)
                 else selection)
    ensures SameShape(patch, r.patch) || (|r.patch.nodes| == |patch.nodes| && r.patch.nodes == patch.nodes)
  {
    var start := ToLocal(viewport, drag.startLocation);
    var location := ToLocal(viewport, drag.location);
    var translation := ToLocalSize(viewport, drag.translation);
    var hit := HitTest(patch, start, layout);
    if IsDrag(drag) then
      match hit
      case None => Commit(patch, Selected(patch, FromCorners(start, location), layout), [])
      case Some(NodeHit(i)) =>
        var moved := MoveGroup(patch, selection, i, translation);
        Commit(moved.patch, selection, moved.events)
      case Some(OutputHit(n, k)) =>
        (match FindInput(patch, location, layout, None)
         case None => Commit(patch, selection, [])
         case Some(input) =>
           var connected := Connect(patch, OutputID(n, k), input);
           Commit(connected.patch, selection, connected.events))
      case Some(InputHit(n, k)) =>
        match AttachedWire(patch.wires, InputID(n, k))
        case None => Commit(patch, selection, [])
        case Some(w) =>
          var rerouted := Reroute(patch, w, FindInput(patch, location, layout, None));
          Commit(rerouted.patch, selection, rerouted.events)
    else
      match hit
      case None => Commit(patch, {}, [])
      case Some(NodeHit(i)) => Commit(patch, {i}, [])
      case Some(_) => Commit(patch, selection, [])
  }
}
