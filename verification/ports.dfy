/**
 Port addressing (Port.swift) and wires (Wire.swift).

 Nodes and ports are identified by index: an input and an output with the same
 numbers are different ports, so the two address types are distinct datatypes.
 */
module Ports {

  /** Nodes are identified by their index in the patch's node sequence. */
  type NodeIndex = nat
  /** Ports are identified by their index within a node's inputs or outputs. */
  type PortIndex = nat

  datatype InputID = InputID(nodeIndex: NodeIndex, portIndex: PortIndex)
  datatype OutputID = OutputID(nodeIndex: NodeIndex, portIndex: PortIndex)

  /** The kinds of signal a port carries; `Custom` names a caller-defined kind. */
  datatype PortType = Control | Signal | Custom(name: string)

  datatype Port = Port(name: string, portType: PortType)

  /** `Port(name:type:)`, whose type defaults to a signal. */
  function MakePort(name: string, portType: PortType := Signal): Port {
    Port(name, portType)
  }

  lemma MakePortDefaultsToSignal(name: string)
    ensures MakePort(name).portType == Signal
    ensures MakePort(name).name == name
  {
  }

  /** Addresses are equal exactly when both indices agree. */
  lemma AddressEquality(a: InputID, b: InputID, c: OutputID, d: OutputID)
    ensures a == b <==> a.nodeIndex == b.nodeIndex && a.portIndex == b.portIndex
    ensures c == d <==> c.nodeIndex == d.nodeIndex && c.portIndex == d.portIndex
  {
  }
}

/**
 A wire runs from one node's output to another node's input. The patch keeps
 wires in a set, so each (output, input) pair occurs at most once. The data
 model allows several wires into one input; editing keeps at most one
 (`OneWirePerInput`).
 */
module Wires {
  import opened Ports
  import opened Enumeration

  /** `Wire(from:to:)`; its two ends never change once built. */
  datatype Wire = Wire(output: OutputID, input: InputID)

  /** The editing invariant: no two distinct wires end at the same input. */
  predicate OneWirePerInput(wires: set<Wire>) {
    forall a, b :: a in wires && b in wires && a.input == b.input ==> a == b
  }

  /**
   A total order on wires: by input port index first, then by the remaining
   indices. Used wherever the source walks a wire set in an order it leaves open.
   */
  function WireLeq(a: Wire, b: Wire): bool {
    if a.input.portIndex != b.input.portIndex then a.input.portIndex < b.input.portIndex
    else if a.input.nodeIndex != b.input.nodeIndex then a.input.nodeIndex < b.input.nodeIndex
    else if a.output.nodeIndex != b.output.nodeIndex then a.output.nodeIndex < b.output.nodeIndex
    else a.output.portIndex <= b.output.portIndex
  }

  lemma WireLeqIsTotal()
    ensures TotalOrder(WireLeq)
  {
  }

  /** The wires of `wires` in ascending `WireLeq` order. */
  function SortedWires(wires: set<Wire>): (r: seq<Wire>)
    ensures |r| == |wires|
    ensures forall k :: 0 <= k < |r| ==> r[k] in wires
    ensures forall w :: w in wires ==> w in r
    ensures forall j, k :: 0 <= j < k < |r| ==> WireLeq(r[j], r[k]) && r[j] != r[k]
  {
    WireLeqIsTotal();
    Sorted(wires, WireLeq)
  }

  /** Any strictly ascending listing of a wire set is the one `SortedWires` gives. */
  lemma SortedWiresIs(wires: set<Wire>, list: seq<Wire>)
    requires Ascending(list, WireLeq)
    requires forall w :: w in list <==> w in wires
    ensures SortedWires(wires) == list
  {
    WireLeqIsTotal();
    AscendingUnique(SortedWires(wires), list, WireLeq);
  }

  /** The wires that end at input `i`. */
  function WiresInto(wires: set<Wire>, i: InputID): set<Wire> {
    set w | w in wires && w.input == i
  }

  /** Under the editing invariant an input has at most one wire. */
  lemma AtMostOneWireInto(wires: set<Wire>, i: InputID)
    requires OneWirePerInput(wires)
    ensures |WiresInto(wires, i)| <= 1
  {
    var s := WiresInto(wires, i);
    if s != {} {
      var w :| w in s;
      assert s == {w};
    }
  }
}
