/**
 Properties of a released drag as a whole: the notifications it fires describe
 the edit exactly, it keeps at most one wire per input, it never moves a
 locked node, and a node drag commits exactly what was drawn during it.
 */
module GestureProperties {
  import opened Options
  import opened Geometry
  import opened Ports
  import opened Wires
  import opened Nodes
  import opened Patches
  import opened EditorRects
  import opened EditorGestures

  // ---- Replaying notifications ----

  /** What a host that mirrors the patch does on one notification. */
  function ReplayEvent(p: Patch, e: Event): Patch {
    match e
    case NodeMoved(i, position) =>
      if i < |p.nodes| then p.(nodes := p.nodes[i := p.nodes[i].(position := position)]) else p
    case WireAdded(w) => p.(wires := p.wires + {w})
    case WireRemoved(w) => p.(wires := p.wires - {w})
  }

  /** The host's mirror after a sequence of notifications, in order. */
  function Replay(p: Patch, events: seq<Event>): Patch
    decreases |events|
  {
    if events == [] then p else Replay(ReplayEvent(p, events[0]), events[1..])
  }

  /** Replaying two runs of notifications is replaying the first, then the second. */
  lemma {:induction false} ReplayAppend(p: Patch, a: seq<Event>, b: seq<Event>)
    ensures Replay(p, a + b) == Replay(Replay(p, a), b)
    decreases |a|
  {
    if a == [] {
      assert a + b == b;
    } else {
      assert a + b != [];
      assert (a + b)[0] == a[0];
      assert (a + b)[1..] == a[1..] + b;
      ReplayAppend(ReplayEvent(p, a[0]), a[1..], b);
    }
  }

  /** Replaying removals removes exactly the listed wires. */
  lemma {:induction false} ReplayRemovals(p: Patch, ws: seq<Wire>)
    ensures Replay(p, RemovalEvents(ws)) == p.(wires := p.wires - (set w | w in ws))
    decreases |ws|
  {
    if ws != [] {
      var events := RemovalEvents(ws);
      assert events[1..] == RemovalEvents(ws[1..]);
      ReplayRemovals(p.(wires := p.wires - {ws[0]}), ws[1..]);
      assert p.wires - {ws[0]} - (set w | w in ws[1..]) == p.wires - (set w | w in ws);
    }
  }

  /** A host replaying `connect`'s notifications ends with `connect`'s patch. */
  lemma ConnectReplays(patch: Patch, output: OutputID, input: InputID)
    ensures Replay(patch, Connect(patch, output, input).events) == Connect(patch, output, input).patch
  {
    var order := SortedWires(WiresInto(patch.wires, input));
    var added := [WireAdded(Wire(output, input))];
    ReplayAppend(patch, RemovalEvents(order), added);
    ReplayRemovals(patch, order);
    assert (set w | w in order) == WiresInto(patch.wires, input);
    var detached := patch.(wires := patch.wires - WiresInto(patch.wires, input));
    assert Replay(detached, added) == ReplayEvent(detached, added[0]);
  }

  /** A host replaying `moveNode`'s notification ends with `moveNode`'s patch. */
  lemma MoveNodeReplays(patch: Patch, i: NodeIndex, offset: Size)
    requires i < |patch.nodes|
    ensures Replay(patch, MoveNode(patch, i, offset).events) == MoveNode(patch, i, offset).patch
  {
    var e := MoveNode(patch, i, offset);
    if !patch.nodes[i].locked {
      assert Replay(patch, e.events) == ReplayEvent(patch, e.events[0]);
    }
  }

  /** A host replaying a run of moves ends with the moved patch. */
  lemma {:induction false} MoveAllReplays(patch: Patch, order: seq<NodeIndex>, offset: Size)
    requires forall k :: 0 <= k < |order| ==> order[k] < |patch.nodes|
    ensures Replay(patch, MoveAll(patch, order, offset).events) == MoveAll(patch, order, offset).patch
    decreases |order|
  {
    if order != [] {
      var first := MoveNode(patch, order[0], offset);
      MoveNodeReplays(patch, order[0], offset);
      MoveAllReplays(first.patch, order[1..], offset);
      ReplayAppend(patch, first.events, MoveAll(first.patch, order[1..], offset).events);
    }
  }

  /** A host replaying a reroute's notifications ends with the rerouted patch. */
  lemma RerouteReplays(patch: Patch, wire: Wire, target: Option<InputID>)
    ensures Replay(patch, Reroute(patch, wire, target).events) == Reroute(patch, wire, target).patch
  {
    var detached := patch.(wires := patch.wires - {wire});
    assert Replay(patch, [WireRemoved(wire)]) == detached;
    if target.Some? {
      ConnectReplays(detached, wire.output, target.value);
      ReplayAppend(patch, [WireRemoved(wire)], Connect(detached, wire.output, target.value).events);
    }
  }

  /**
   The notifications of a release describe its edit exactly: a host that
   applies them, in order, to its copy of the patch ends with the editor's
   patch.
   */
  lemma OnEndedReplays(patch: Patch, selection: Selection, layout: LayoutConstants, viewport: Viewport,
                       drag: DragValue)
    requires WiresInRange(patch) && viewport.zoom > 0.0 && ReleaseInRange(patch, selection, layout, viewport, drag)
    ensures var r := OnEnded(patch, selection, layout, viewport, drag);
            Replay(patch, r.events) == r.patch
  {
    var start := ToLocal(viewport, drag.startLocation);
    if !IsDrag(drag) {
      assert OnEnded(patch, selection, layout, viewport, drag).events == [];
    } else {
      match HitTest(patch, start, layout)
      case None =>
        BackgroundDragKeepsPatch(patch, selection, layout, viewport, drag);
      case Some(NodeHit(i)) =>
        NodeDragReplays(patch, selection, layout, viewport, drag, i);
      case Some(OutputHit(n, k)) =>
        OutputDragReplays(patch, selection, layout, viewport, drag, n, k);
      case Some(InputHit(n, k)) =>
        if AttachedWire(patch.wires, InputID(n, k)).Some? {
          InputDragReplays(patch, selection, layout, viewport, drag, n, k);
        } else {
          BareInputDragKeepsPatch(patch, selection, layout, viewport, drag, n, k);
        }
    }
  }

  lemma NodeDragReplays(patch: Patch, selection: Selection, layout: LayoutConstants, viewport: Viewport,
                        drag: DragValue, i: NodeIndex)
    requires WiresInRange(patch) && viewport.zoom > 0.0 && ReleaseInRange(patch, selection, layout, viewport, drag)
    requires IsDrag(drag) && HitTest(patch, ToLocal(viewport, drag.startLocation), layout) == Some(NodeHit(i))
    ensures var r := OnEnded(patch, selection, layout, viewport, drag);
            Replay(patch, r.events) == r.patch
  {
    NodeDragMovesGroup(patch, selection, layout, viewport, drag, i);
    assert GroupInRange(patch, selection, i);
    var order := GroupOrder(selection, i);
    forall k | 0 <= k < |order|
      ensures order[k] < |patch.nodes|
    {
      assert MovesWith(selection, i, order[k]);
    }
    MoveAllReplays(patch, order, ToLocalSize(viewport, drag.translation));
  }

  lemma OutputDragReplays(patch: Patch, selection: Selection, layout: LayoutConstants, viewport: Viewport,
                          drag: DragValue, n: NodeIndex, k: PortIndex)
    requires WiresInRange(patch) && viewport.zoom > 0.0 && ReleaseInRange(patch, selection, layout, viewport, drag)
    requires IsDrag(drag) && HitTest(patch, ToLocal(viewport, drag.startLocation), layout) == Some(OutputHit(n, k))
    ensures var r := OnEnded(patch, selection, layout, viewport, drag);
            Replay(patch, r.events) == r.patch
  {
    OutputDragIsConnect(patch, selection, layout, viewport, drag, n, k);
    var target := FindInput(patch, ToLocal(viewport, drag.location), layout, None);
    if target.Some? {
      ConnectReplays(patch, OutputID(n, k), target.value);
    }
  }

  lemma InputDragReplays(patch: Patch, selection: Selection, layout: LayoutConstants, viewport: Viewport,
                         drag: DragValue, n: NodeIndex, k: PortIndex)
    requires WiresInRange(patch) && viewport.zoom > 0.0 && ReleaseInRange(patch, selection, layout, viewport, drag)
    requires IsDrag(drag) && HitTest(patch, ToLocal(viewport, drag.startLocation), layout) == Some(InputHit(n, k))
    requires AttachedWire(patch.wires, InputID(n, k)).Some?
    ensures var r := OnEnded(patch, selection, layout, viewport, drag);
            Replay(patch, r.events) == r.patch
  {
    InputDragIsReroute(patch, selection, layout, viewport, drag, n, k);
    RerouteReplays(patch, AttachedWire(patch.wires, InputID(n, k)).value,
                   FindInput(patch, ToLocal(viewport, drag.location), layout, None));
  }

  /** A drag from empty canvas only selects: the patch stays as it was and nothing is reported. */
  lemma BackgroundDragKeepsPatch(patch: Patch, selection: Selection, layout: LayoutConstants, viewport: Viewport,
                                 drag: DragValue)
    requires WiresInRange(patch) && viewport.zoom > 0.0 && ReleaseInRange(patch, selection, layout, viewport, drag)
    requires IsDrag(drag) && HitTest(patch, ToLocal(viewport, drag.startLocation), layout).None?
    ensures var r := OnEnded(patch, selection, layout, viewport, drag);
            r.patch == patch && r.events == []
  {
  }

  /** A drag from an input with no wire attached changes nothing. */
  lemma BareInputDragKeepsPatch(patch: Patch, selection: Selection, layout: LayoutConstants, viewport: Viewport,
                                drag: DragValue, n: NodeIndex, k: PortIndex)
    requires WiresInRange(patch) && viewport.zoom > 0.0 && ReleaseInRange(patch, selection, layout, viewport, drag)
    requires IsDrag(drag) && HitTest(patch, ToLocal(viewport, drag.startLocation), layout) == Some(InputHit(n, k))
    requires AttachedWire(patch.wires, InputID(n, k)).None?
    ensures var r := OnEnded(patch, selection, layout, viewport, drag);
            r.patch == patch && r.events == []
  {
  }

  // ---- Invariants of a release ----

  /** Removing a wire keeps the editing invariant. */
  lemma RemovingKeepsOneWirePerInput(wires: set<Wire>, w: Wire)
    requires OneWirePerInput(wires)
    ensures OneWirePerInput(wires - {w})
  {
  }

  /** A release keeps the editing invariant: at most one wire per input. */
  lemma OnEndedKeepsOneWirePerInput(patch: Patch, selection: Selection, layout: LayoutConstants, viewport: Viewport,
                                    drag: DragValue)
    requires WiresInRange(patch) && viewport.zoom > 0.0 && ReleaseInRange(patch, selection, layout, viewport, drag)
    requires OneWirePerInput(patch.wires)
    ensures OneWirePerInput(OnEnded(patch, selection, layout, viewport, drag).patch.wires)
  {
    var start := ToLocal(viewport, drag.startLocation);
    if IsDrag(drag) {
      match HitTest(patch, start, layout)
      case None =>
      case Some(NodeHit(i)) =>
      case Some(OutputHit(n, k)) =>
        OutputDragIsConnect(patch, selection, layout, viewport, drag, n, k);
        var target := FindInput(patch, ToLocal(viewport, drag.location), layout, None);
        if target.Some? {
          ConnectKeepsOneWirePerInput(patch, OutputID(n, k), target.value);
        }
      case Some(InputHit(n, k)) =>
        var attached := AttachedWire(patch.wires, InputID(n, k));
        if attached.Some? {
          InputDragIsReroute(patch, selection, layout, viewport, drag, n, k);
          RerouteKeepsOneWirePerInput(patch, attached.value, FindInput(patch, ToLocal(viewport, drag.location), layout, None));
        }
    }
  }

  /** Rerouting a wire keeps the editing invariant. */
  lemma RerouteKeepsOneWirePerInput(patch: Patch, wire: Wire, target: Option<InputID>)
    requires OneWirePerInput(patch.wires)
    ensures OneWirePerInput(Reroute(patch, wire, target).patch.wires)
  {
    var detached := patch.(wires := patch.wires - {wire});
    RemovingKeepsOneWirePerInput(patch.wires, wire);
    if target.Some? {
      ConnectKeepsOneWirePerInput(detached, wire.output, target.value);
    }
  }

  /** A drag from a node commits the group move of that node. */
  lemma NodeDragMovesGroup(patch: Patch, selection: Selection, layout: LayoutConstants, viewport: Viewport,
                           drag: DragValue, i: NodeIndex)
    requires WiresInRange(patch) && viewport.zoom > 0.0 && ReleaseInRange(patch, selection, layout, viewport, drag)
    requires IsDrag(drag) && HitTest(patch, ToLocal(viewport, drag.startLocation), layout) == Some(NodeHit(i))
    ensures var r := OnEnded(patch, selection, layout, viewport, drag);
            var m := MoveGroup(patch, selection, i, ToLocalSize(viewport, drag.translation));
            r.patch == m.patch && r.events == m.events
  {
  }

  /** Every release other than a drag from a node leaves the nodes as they were. */
  lemma OtherReleasesKeepNodes(patch: Patch, selection: Selection, layout: LayoutConstants, viewport: Viewport,
                               drag: DragValue)
    requires WiresInRange(patch) && viewport.zoom > 0.0 && ReleaseInRange(patch, selection, layout, viewport, drag)
    requires !IsDrag(drag) || !HitTest(patch, ToLocal(viewport, drag.startLocation), layout).Some?
             || !HitTest(patch, ToLocal(viewport, drag.startLocation), layout).value.NodeHit?
    ensures OnEnded(patch, selection, layout, viewport, drag).patch.nodes == patch.nodes
  {
  }

  /** A release never moves a locked node, and never changes anything about a node but its position. */
  lemma OnEndedKeepsLockedNodes(patch: Patch, selection: Selection, layout: LayoutConstants, viewport: Viewport,
                                drag: DragValue, j: NodeIndex)
    requires WiresInRange(patch) && viewport.zoom > 0.0 && ReleaseInRange(patch, selection, layout, viewport, drag)
    requires j < |patch.nodes|
    ensures var r := OnEnded(patch, selection, layout, viewport, drag);
            && |r.patch.nodes| == |patch.nodes|
            && r.patch.nodes[j].(position := patch.nodes[j].position) == patch.nodes[j]
            && (patch.nodes[j].locked ==> r.patch.nodes[j] == patch.nodes[j])
  {
    var hit := HitTest(patch, ToLocal(viewport, drag.startLocation), layout);
    if IsDrag(drag) && hit.Some? && hit.value.NodeHit? {
      var i := hit.value.nodeIndex;
      var translation := ToLocalSize(viewport, drag.translation);
      NodeDragMovesGroup(patch, selection, layout, viewport, drag, i);
      var moved := MoveGroup(patch, selection, i, translation).patch;
      assert moved.nodes[j].(position := patch.nodes[j].position) == patch.nodes[j];
    } else {
      OtherReleasesKeepNodes(patch, selection, layout, viewport, drag);
    }
  }

  /**
   A node drag commits what it showed: on release every node ends where it
   was drawn during the drag, its position plus the live offset of the drag
   state for the same pointer movement.
   */
  lemma NodeDragCommitsPreview(patch: Patch, selection: Selection, layout: LayoutConstants, viewport: Viewport,
                               drag: DragValue, dragInfo: DragInfo, j: NodeIndex)
    requires WiresInRange(patch) && viewport.zoom > 0.0 && ReleaseInRange(patch, selection, layout, viewport, drag)
    requires IsDrag(drag) && j < |patch.nodes|
    requires HitTest(patch, ToLocal(viewport, drag.startLocation), layout).Some?
    requires HitTest(patch, ToLocal(viewport, drag.startLocation), layout).value.NodeHit?
    ensures OnEnded(patch, selection, layout, viewport, drag).patch.nodes[j].position
            == Add(patch.nodes[j].position,
                   DragOffset(patch, selection, Updating(patch, layout, viewport, drag, dragInfo), j))
  {
    var i := HitTest(patch, ToLocal(viewport, drag.startLocation), layout).value.nodeIndex;
    var t := ToLocalSize(viewport, drag.translation);
    NodeDragMovesGroup(patch, selection, layout, viewport, drag, i);
    assert Updating(patch, layout, viewport, drag, dragInfo) == NodeDrag(i, t);
    GroupMoveIsPreview(patch, selection, i, t, j);
  }

  /** The group move puts every node where the drag preview draws it. */
  lemma GroupMoveIsPreview(patch: Patch, selection: Selection, i: NodeIndex, t: Size, j: NodeIndex)
    requires GroupInRange(patch, selection, i) && j < |patch.nodes|
    ensures MoveGroup(patch, selection, i, t).patch.nodes[j].position
            == Add(patch.nodes[j].position, DragOffset(patch, selection, NodeDrag(i, t), j))
  {
  }

  /** A drag from an output commits `connect` to the input under the pointer, if there is one. */
  lemma OutputDragIsConnect(patch: Patch, selection: Selection, layout: LayoutConstants, viewport: Viewport,
                            drag: DragValue, n: NodeIndex, k: PortIndex)
    requires WiresInRange(patch) && viewport.zoom > 0.0 && ReleaseInRange(patch, selection, layout, viewport, drag)
    requires IsDrag(drag) && HitTest(patch, ToLocal(viewport, drag.startLocation), layout) == Some(OutputHit(n, k))
    ensures var r := OnEnded(patch, selection, layout, viewport, drag);
            var target := FindInput(patch, ToLocal(viewport, drag.location), layout, None);
            && (target.None? ==> r.patch == patch && r.events == [])
            && (target.Some? ==> r.patch == Connect(patch, OutputID(n, k), target.value).patch
                                 && r.events == Connect(patch, OutputID(n, k), target.value).events)
  {
  }

  /**
   Dragging from an output to an input connects them: that input then has
   exactly the new wire, every other input keeps its wires, and the addition
   is the last notification. Released anywhere else, nothing changes.
   */
  lemma OutputDragConnects(patch: Patch, selection: Selection, layout: LayoutConstants, viewport: Viewport,
                           drag: DragValue, n: NodeIndex, k: PortIndex, input: InputID)
    requires WiresInRange(patch) && viewport.zoom > 0.0 && ReleaseInRange(patch, selection, layout, viewport, drag)
    requires IsDrag(drag) && HitTest(patch, ToLocal(viewport, drag.startLocation), layout) == Some(OutputHit(n, k))
    requires FindInput(patch, ToLocal(viewport, drag.location), layout, None) == Some(input)
    ensures var r := OnEnded(patch, selection, layout, viewport, drag);
            && (forall w: Wire :: w.input == input ==> (w in r.patch.wires <==> w == Wire(OutputID(n, k), input)))
            && (forall w: Wire :: w.input != input ==> (w in r.patch.wires <==> w in patch.wires))
            && |r.events| > 0 && r.events[|r.events| - 1] == WireAdded(Wire(OutputID(n, k), input))
  {
    OutputDragIsConnect(patch, selection, layout, viewport, drag, n, k);
    ConnectEvents(patch, OutputID(n, k), input);
  }

  /** A drag from an input with a wire commits the reroute of that wire to the input under the pointer. */
  lemma InputDragIsReroute(patch: Patch, selection: Selection, layout: LayoutConstants, viewport: Viewport,
                           drag: DragValue, n: NodeIndex, k: PortIndex)
    requires WiresInRange(patch) && viewport.zoom > 0.0 && ReleaseInRange(patch, selection, layout, viewport, drag)
    requires IsDrag(drag) && HitTest(patch, ToLocal(viewport, drag.startLocation), layout) == Some(InputHit(n, k))
    requires AttachedWire(patch.wires, InputID(n, k)).Some?
    ensures var r := OnEnded(patch, selection, layout, viewport, drag);
            var e := Reroute(patch, AttachedWire(patch.wires, InputID(n, k)).value,
                             FindInput(patch, ToLocal(viewport, drag.location), layout, None));
            r.patch == e.patch && r.events == e.events
  {
  }

  /**
   Dragging a wire off an input detaches it, its removal announced first;
   released over an input, its output is connected there instead.
   */
  lemma InputDragReroutes(patch: Patch, selection: Selection, layout: LayoutConstants, viewport: Viewport,
                          drag: DragValue, n: NodeIndex, k: PortIndex, w: Wire)
    requires WiresInRange(patch) && viewport.zoom > 0.0 && ReleaseInRange(patch, selection, layout, viewport, drag)
    requires OneWirePerInput(patch.wires)
    requires IsDrag(drag) && HitTest(patch, ToLocal(viewport, drag.startLocation), layout) == Some(InputHit(n, k))
    requires w in patch.wires && w.input == InputID(n, k)
    ensures var r := OnEnded(patch, selection, layout, viewport, drag);
            var target := FindInput(patch, ToLocal(viewport, drag.location), layout, None);
            && |r.events| > 0 && r.events[0] == WireRemoved(w)
            && (target.None? ==> r.patch.wires == patch.wires - {w})
            && (target.Some? ==> Wire(w.output, target.value) in r.patch.wires)
            && (target.Some? && target.value != w.input ==> w !in r.patch.wires)
  {
    assert w in WiresInto(patch.wires, InputID(n, k));
    assert AttachedWire(patch.wires, InputID(n, k)) == Some(w);
    InputDragIsReroute(patch, selection, layout, viewport, drag, n, k);
    var target := FindInput(patch, ToLocal(viewport, drag.location), layout, None);
    if target.Some? {
      var r := Reroute(patch, w, target);
      assert Wire(w.output, target.value) in WiresInto(r.patch.wires, target.value);
      if target.value != w.input {
        assert w !in WiresInto(patch.wires - {w}, w.input);
        assert w !in WiresInto(r.patch.wires, w.input);
      }
    }
  }
}
