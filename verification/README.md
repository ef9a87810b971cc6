# Flow graph-interaction engine in Dafny

This project models the engine of AudioKit's `Flow` node editor (`Sources/Flow`).
- A **patch** is a sequence of nodes plus a set of wires.
- A **node** has a name, a position, a `locked` flag, input ports and output ports.
- A **wire** joins an output (node index, port index) to an input (node index, port index).

On top of that data the model covers five parts:
- **Geometry.** The helpers on points, sizes and rectangles; the body, input and output rectangles of a node.
- **Hit testing.** A point resolves to the topmost port or node, or to the background, in both revisions of the code.
- **Layout.** The two layouts: the recursive layout of a node's upstream tree (in both revisions) and the stacked grid layout.
- **Editor queries.** The offset drawn for a node during a drag, and the searches for an input, an output or a node under a point.
- **The drag gesture.** The live `DragInfo` state, and what a release commits: taps, rubber-band selection, node and group moves, connecting, rerouting and detaching wires. It also covers the notifications fired for the host.

Modules follow the source files:

| module | file | models |
|---|---|---|
| `Options` | options.dfy | Swift optionals |
| `Geometry` | geometry.dfy | Helpers.swift, plus the assumed `CGRect` containment and intersection |
| `Ports`, `Wires` | ports.dfy | Port.swift, Wire.swift |
| `Enumeration` | enumeration.dfy | the fixed enumeration order of Swift sets |
| `Nodes` | nodes.dfy | Node.swift, Node+Layout.swift, Node+Gestures.swift, LayoutConstants.swift |
| `Patches` | patch.dfy | Patch.swift (struct, `.background` hit test), Patch+Gestures.swift |
| `PatchLayout` | patch_layout.dfy | `recursiveLayout` of Patch+Layout.swift and of Patch.swift |
| `LayoutExamples` | layout_examples.dfy | concrete patches on which the layout revisions are compared |
| `Stacking` | stacked_layout.dfy | `stackedLayout` (identical in Patch+Layout.swift and Patch.swift) |
| `EditorRects` | editor_rects.dfy | NodeEditor+Rects.swift |
| `EditorGestures` | editor_gestures.dfy | NodeEditor+Gestures.swift |
| `GestureProperties` | gesture_properties.dfy | whole-gesture properties: notifications replay to the committed patch, one wire per input, locked nodes |

## Modelling choices and assumptions

- **Coordinates** are `real`. Every operation the engine uses is `+`, `-`, `*`, `/`, `min`, `max` or `abs`, so exact rationals are faithful. The one `sqrt` (`distanceTo`) is only compared with 5, so the model compares the squared distance with 25 instead.
- **`CGRect.contains`** is not in the source. It is assumed to be half-open, `[min, max)`, on the standardized rectangle.
- **`CGRect.intersects`** is assumed to mean that the interiors overlap.
- **Swift sets have no specified iteration order.** The wire set, the set of wires into an input, and the selection are enumerated here in one fixed total order:
  - wires by `WireLeq`: input port index first (as `recursiveLayout` sorts them), then the remaining fields;
  - node indices ascending.
- **Host callbacks become notifications.** `nodeMoved`, `wireAdded` and `wireRemoved` are returned as a sequence of `Event`s.
- **Bindings become values.** `patch`, `selection` and `dragInfo` are parameters and results.
- **The canvas transform** is a `Viewport(zoom, pan)` with `zoom > 0`.
  - `toLocal(CGPoint)` subtracts `pan`, a `CGSize`, from a `CGPoint`. Helpers.swift defines no such operator, so it is modelled componentwise.
  - The drag's translation is a free value, independent of its two locations.
- **`nodeSpacing`.** `LayoutConstants.swift` declares no `nodeSpacing`, yet both layouts read it. The constants are therefore a record with a `nodeSpacing` field. `DefaultLayout(nodeSpacing)` gives the library's defaults for the other four fields: port 20x20, port spacing 10, width 200, title height 40.
- **Untyped `findInput`.** The gesture code calls `findInput(point:)` without a type. An untyped overload is not part of this model; `findInput(point:type:)` in NodeEditor+Rects.swift filters by `PortType`. The search takes an optional filter, and `None` is the untyped call.
- **Indices** are `nat`. Where Swift would trap on an out-of-range index, the model has a precondition.
- **Termination of `recursiveLayout`.** The node being laid out is not in the consumed set while its upstream nodes are visited. So a self-loop or a cycle upstream of the root recurses forever, unless the consumed set passed in happens to cut it.
  - The model takes a ghost `rank` that strictly decreases along every wire into a node ranked no higher than the root (`PatchLayout.Ranked`). Then the root's upstream part is acyclic and names only existing nodes.
  - Cycles and dangling wires elsewhere in the patch are allowed. `LayoutExamples.CycleAsideLayout` lays out a root next to a 2-cycle.
- **The loop's turns.** `PatchLayout.Steps` records the turns of the loop over a node's incoming wires that lay a node out. Each turn records its wire, the feeding node, the consumed set it starts with, its offset below the root and the height its layout returns. The exact heights and positions are stated against this record.
- **The two revisions of `recursiveLayout`** (Patch+Layout.swift and Patch.swift) share one definition, `PatchLayout.Layout`, parameterised by three switches:
  - whether consumed nodes are skipped;
  - for which value of the padding flag spacing is added;
  - whether sibling heights are summed.

  The layout's positions are returned as a map and written into the patch at the end. This matches the source because layout only assigns positions, and a node's height depends on its port counts alone.
- **Both hit tests are modelled.** The optional-returning hit test of Patch+Gestures.swift is the reference. The loop of Patch.swift, with its `.background` case, is a method proved equal to it. The node hit tests of Node.swift and Node+Gestures.swift are textually the same and share one definition.

## Model

| member | source | states |
|---|---|---|
| Geometry.Sub | Sources/Flow/Helpers.swift:27-29 | `p - q` is the translation that carries `q` onto `p` |
| Geometry.AddSizes | Sources/Flow/Helpers.swift:32-34 | moving a point by the sum of two sizes is moving it by one and then the other |
| Geometry.AddSubRoundTrip | Sources/Flow/Helpers.swift:22-29 | round trips: `p + (q - p) == q` and `(p + s) - p == s` |
| Geometry.Center | Sources/Flow/Helpers.swift:38-40 | the centre is as far from the origin as from the far corner, i.e. origin plus half the size |
| Geometry.Offset | Sources/Flow/Helpers.swift:43-45 | `offset(by:)` keeps the size and moves the centre by exactly the offset |
| Geometry.OffsetContains | Sources/Flow/Helpers.swift:43-45 | a point moved by `d` is in the offset rectangle exactly when the point was in the original |
| Geometry.FromCorners | Sources/Flow/Helpers.swift:48-52 | `CGRect(a:b:)` has non-negative size, origin at the componentwise minimum and far corner at the componentwise maximum |
| Geometry.FromCornersSymmetric | Sources/Flow/Helpers.swift:48-52 | `CGRect(a:b:)` does not depend on the order of its corners |
| Geometry.DistanceSquared | Sources/Flow/Helpers.swift:64-68 | the (squared) distance is non-negative and zero between identical points |
| Geometry.DistanceSymmetric | Sources/Flow/Helpers.swift:64-68 | the distance from `p` to `q` is the distance from `q` to `p` |
| Geometry.RemovingPrefix | Sources/Flow/Helpers.swift:8-11 | nil exactly when the string lacks the prefix; otherwise prefix plus result is the string |
| Ports.MakePortDefaultsToSignal | Sources/Flow/Model/Port.swift:58-61 | a port made without a type is a `.signal` port with the given name |
| Ports.AddressEquality | Sources/Flow/Model/Port.swift:9-36 | two input IDs (two output IDs) are equal exactly when node index and port index both are |
| Wires.SortedWires | Sources/Flow/Model/Patch+Layout.swift:23-25 | the incoming wires are listed each once, ascending by input port index |
| Wires.AtMostOneWireInto | Sources/Flow/Model/Wire.swift:5-10 | under the editing invariant (one wire per input) an input has at most one wire |
| Nodes.DefaultLayoutIsSane | Sources/Flow/Model/LayoutConstants.swift:6-12 | the default constants make ports have area, rows separated, and an input and an output fit side by side |
| Nodes.MakeNodeNamed | Sources/Flow/Model/Node.swift:36-46 | the name-list initialiser makes one `.signal` port per name, same count, same order |
| Nodes.InitialisersDefaultUnlocked | Sources/Flow/Model/Node.swift:24-46 | both initialisers default to unlocked and to the origin |
| Nodes.Translate | Sources/Flow/Model/Node.swift:48-53 | `translate(by:)` changes the position alone (locked or not), by exactly the offset |
| Nodes.TranslateCompose | Sources/Flow/Model/Node+Gestures.swift:7-12 | translating by `a` then `b` is translating by `a + b` |
| Nodes.LayoutTestRects | Tests/FlowTests/LayoutTests.swift:7-21 | the library test's values: body (400,100) 200x80, input (410,150) 20x20, output (570,150) 20x20 |
| Nodes.NodeRectRows | Sources/Flow/Model/Node+Layout.swift:8-14 | the body starts at the position, is `nodeWidth` wide and `rows*(portH+portSpacing)+titleH+portSpacing` high, rows being the larger port count |
| Nodes.PortRowsStacked | Sources/Flow/Model/Node+Layout.swift:17-28 | port `i+1` is port `i` moved down by `portH+portSpacing`; input and output `i` are level |
| Nodes.PortRowYMonotone | Sources/Flow/Model/Node+Layout.swift:18-25 | a lower port row starts below the bottom of every row above it plus the spacing |
| Nodes.PortRowsDisjoint | Sources/Flow/Model/Node+Layout.swift:17-28 | with positive port spacing no two inputs (no two outputs) of a node overlap |
| Nodes.PortsWithinNode | Sources/Flow/Model/Node+Layout.swift:8-28 | under sane constants every input and output row lies within the node's body |
| Nodes.TranslateMovesRects | Sources/Flow/Model/Node+Layout.swift:8-28 | translating a node moves its body and every port rectangle by the same offset |
| Nodes.FirstInput | Sources/Flow/Model/Node.swift:56-60 | the lowest input index whose rectangle (of the requested type) contains the point; none exactly when no input does |
| Nodes.FirstOutput | Sources/Flow/Model/Node.swift:61-65 | the lowest output index whose rectangle contains the point; none exactly when no output does |
| Nodes.NodeHitTest | Sources/Flow/Model/Node.swift:55-72 | priority inputs, then outputs, then body; the lowest port wins; the result carries the node index; nil exactly when no port and not the body contains the point |
| Nodes.NodeHitExactlyInBody | Sources/Flow/Model/Node+Gestures.swift:14-31 | under sane constants a node claims a point exactly when its body contains it, since its ports lie inside the body |
| Nodes.NodeHitTestTranslates | Sources/Flow/Model/Node+Gestures.swift:14-31 | hit testing is invariant under moving node and point together |
| Patches.HitTest | Sources/Flow/Model/Patch+Gestures.swift:14-22 | the hit of the highest-index node that claims the point; nothing above it claims it; nil exactly when no node does |
| Patches.ScanInputs | Sources/Flow/Model/Patch.swift:30-34 | the older inner loop over inputs finds the same input as the node hit test |
| Patches.ScanOutputs | Sources/Flow/Model/Patch.swift:35-39 | the older inner loop over outputs finds the same output as the node hit test |
| Patches.ScanNode | Sources/Flow/Model/Patch.swift:30-43 | the older per-node body equals the node hit test |
| Patches.HitTestWithBackground | Sources/Flow/Model/Patch.swift:28-47 | the `.background` hit test equals the optional one with `.background` for nil; background exactly when no node claims the point |
| Patches.MoveNode | Sources/Flow/Model/Patch+Gestures.swift:24-33 | a locked node: nothing changes, no notification; unlocked: it is translated, one notification with its index and new position; nothing else changes |
| Patches.Selected | Sources/Flow/Model/Patch+Gestures.swift:35-44 | exactly the valid node indices whose body intersects the rectangle |
| PatchLayout.Into | Sources/Flow/Model/Patch+Layout.swift:23-25 | the incoming wires of a node, in the given order: every listed wire ends at the node and every such wire is listed |
| PatchLayout.Layout | Sources/Flow/Model/Patch+Layout.swift:11-49 | the returned height covers at least the node's own height plus its padding |
| PatchLayout.LayoutHeight | Sources/Flow/Model/Patch+Layout.swift:45-46 | a layout's height is exactly the larger of the height its loop ends with and the node's own height, plus the padding |
| PatchLayout.Apply | Sources/Flow/Model/Patch+Layout.swift:20 | writing assigned positions changes positions only, of the assigned nodes only |
| PatchLayout.LayoutConsumes | Sources/Flow/Model/Patch+Layout.swift:27-42 | the consumed set only grows, by nodes upstream of the root, and ends up holding every node feeding the root |
| PatchLayout.UpstreamConsumes | Sources/Flow/Model/Patch+Layout.swift:30-43 | the loop over incoming wires consumes the node feeding each remaining wire, adding only upstream nodes |
| PatchLayout.LayoutMoves | Sources/Flow/Model/Patch+Layout.swift:20-42 | the root goes to `point`; every other moved node is upstream and newly consumed; a node consumed before the call is never moved again |
| PatchLayout.UpstreamMoves | Sources/Flow/Model/Patch+Layout.swift:30-43 | the node feeding a not-yet-consumed wire goes one column left (`x - nodeWidth - nodeSpacing`) at the running height below the root |
| PatchLayout.StepsTurns | Sources/Flow/Model/Patch+Layout.swift:30-39 | each turn lays out the node feeding its wire, with the turn's offset and consumed set, and has that layout's height; the first turn starts from the loop's height and consumed set; the older revision makes a turn of every wire; under the consumed-set rules no turn's node was consumed before it |
| PatchLayout.StepsChain | Sources/Flow/Model/Patch+Layout.swift:30-43 | the wires of the turns increase; a turn's offset is the previous turn's height as written (the running total when corrected); every wire passed over before a turn had its feeder consumed |
| PatchLayout.StepsConsumed | Sources/Flow/Model/Patch+Layout.swift:41-42 | each turn starts with the consumed set the previous turn's layout returned, plus that turn's node |
| PatchLayout.UpstreamHeight | Sources/Flow/Model/Patch+Layout.swift:29-43 | the loop ends with the height the last turn leaves (as written, that turn's layout height), or its starting height when no turn lays a node out |
| PatchLayout.UpstreamPlaces | Sources/Flow/Model/Patch+Layout.swift:33-42 | under the consumed-set rules each turn's node ends one column left of the root at the turn's offset below it; no later turn moves it |
| PatchLayout.LayoutPlaces | Sources/Flow/Model/Patch+Layout.swift:20-42 | under the consumed-set rules a whole layout leaves each turn's node where its turn put it |
| PatchLayout.TopLevelSteps | Sources/Flow/Model/Patch+Layout.swift:20-46 | for the sorted wire order: the exact height from the turns, the first turn at offset 0, each offset following from the previous turn, every turn's node an existing node, and under the consumed-set rules each placed where its turn put it |
| PatchLayout.ConsumedRulesSteps | Sources/Flow/Model/Patch+Layout.swift:29-46 | under the consumed-set rules, exact height from the turns, and the first turn's node level with the root, each later one below it by what the previous turn leaves |
| PatchLayout.CurrentSteps | Sources/Flow/Model/Patch+Layout.swift:29-46 | as written: height is the larger of the last turn's height (0 if none) and the node's, plus padding; each turn's node sits at `point.y` plus the previous turn's height |
| PatchLayout.LegacySteps | Sources/Flow/Model/Patch.swift:64-80 | the older revision's exact height: the larger of the last turn's height (0 if none) and the node's, plus spacing when the padding flag is off |
| PatchLayout.LayoutInBand | Sources/Flow/Model/Patch+Layout.swift:7-9 | with sibling heights summed, every node placed lies wholly within the returned height below `point` |
| PatchLayout.RecursiveLayout | Sources/Flow/Model/Patch+Layout.swift:11-49 | only positions change; the root ends at `point`; the consumed set grows by upstream nodes and covers every node feeding the root; only newly consumed nodes move besides the root; the aggregate height is exactly `max(last laid-out sibling's height or 0, node height) + (nodePadding ? nodeSpacing : 0)`; the first laid-out sibling is at `(x - nodeWidth - nodeSpacing, point.y)` and each later one at `point.y` plus the previous one's height |
| PatchLayout.LegacyRecursiveLayout | Sources/Flow/Model/Patch.swift:53-81 | the older revision: only positions change; the root ends at `point`; only upstream nodes move; the height is exactly `max(last sibling's height or 0, node height)`, plus spacing when `nodePadding` is false |
| PatchLayout.CorrectedRecursiveLayout | Sources/Flow/Model/Patch+Layout.swift:29-46 | the layout with sibling heights summed keeps every guarantee of the source's; its height is exactly the larger of the siblings' running total and the node's height, plus padding; each sibling sits directly below the previous one's subtree; under sane constants its height bounds every node it places |
| PatchLayout.CorrectedInBand | Sources/Flow/Model/Patch+Layout.swift:7-9 | with summed heights the returned height is what the documentation promises: the height of all nodes in the subtree |
| LayoutExamples.ThreeFeedersOverlap | Sources/Flow/Model/Patch+Layout.swift:29-46 | as written, three leaves feeding one node: the second and third are placed at the same point, and the third sticks out below the returned height |
| LayoutExamples.ThreeFeedersCorrected | Sources/Flow/Model/Patch+Layout.swift:29-46 | with summed heights the three leaves are stacked 80 apart and the height, 280, covers them |
| LayoutExamples.ThreeFeedersFinding | Sources/Flow/Model/Patch+Layout.swift:40 | on the literal three-feeder patch two leaves coincide as written and are 80 apart when corrected |
| LayoutExamples.SharedCurrentOutcome | Sources/Flow/Model/Patch+Layout.swift:33 | a leaf feeding both inputs of a node is placed once, for the first wire, and skipped for the second |
| LayoutExamples.SharedLegacyOutcome | Sources/Flow/Model/Patch.swift:64-80 | the older revision lays the shared leaf out again for the second wire, ending 120 lower, and pads the other way |
| LayoutExamples.SharedFeederRevisionsDiffer | Sources/Flow/Model/Patch.swift:53-81 | the two revisions place the shared leaf differently on the same patch |
| LayoutExamples.UnfedRoot | Sources/Flow/Model/Patch+Layout.swift:20-46 | a root fed by no wire is placed alone at `point` with its own height, whatever the other wires do |
| LayoutExamples.CycleAsideLayout | Sources/Flow/Model/Patch+Layout.swift:20-46 | a patch whose nodes 1 and 2 feed each other is ranked into root 0, and the layout from 0 places it alone with height 80 |
| Stacking.StackOffsetGrows | Sources/Flow/Model/Patch+Layout.swift:71-75 | each node of a column starts at or below the bottom of every node above it |
| Stacking.StackPointsDescend | Sources/Flow/Model/Patch+Layout.swift:60-76 | within a column all entries share the column's x and do not overlap vertically |
| Stacking.StackStep | Sources/Flow/Model/Patch+Layout.swift:65-75 | one pass of the inner loop puts the entry at the running offset, which then grows by its height plus the gap |
| Stacking.PlaceAllComplete | Sources/Flow/Model/Patch+Layout.swift:57-78 | once all entries are placed, only positions changed, unlisted nodes are untouched and each node's last listing decides where it is |
| Stacking.StackColumn | Sources/Flow/Model/Patch+Layout.swift:61-76 | the inner loop places exactly the entries of its column, in order |
| Stacking.StackedLayout | Sources/Flow/Model/Patch+Layout.swift:57-78 | only positions change; unlisted nodes are untouched; column `c` is at `origin.x + c*(nodeWidth+nodeSpacing)`, and entry `k` is the sum of the heights (plus spacing, except in the last column) above it below `origin.y` |
| EditorRects.DragOffset | Sources/Flow/Views/NodeEditor+Rects.swift:7-25 | zero for a locked node and in any state but a node drag; in a node drag, the drag's offset for the dragged node and, when it is selected, for every selected node; zero otherwise |
| EditorRects.FindInput | Sources/Flow/Views/NodeEditor+Rects.swift:28-43 | the matching input on the highest-index node that has one, the lowest on that node; none exactly when no node has one |
| EditorRects.FindOutput | Sources/Flow/Views/NodeEditor+Rects.swift:46-61 | the matching output on the highest-index node that has one; none exactly when no node has one |
| EditorRects.FindNode | Sources/Flow/Views/NodeEditor+Rects.swift:64-69 | the highest-index node whose body contains the point, ports ignored; none exactly when no body does |
| EditorRects.HitInputIsFoundInput | Sources/Flow/Views/NodeEditor+Rects.swift:35-43 | where the hit test finds an input, the untyped input search finds the same one |
| EditorRects.HitOutputIsFoundOutput | Sources/Flow/Views/NodeEditor+Rects.swift:53-61 | where the hit test finds an output, the output search finds the same one |
| EditorRects.FindNodeAgreesWithHitTest | Sources/Flow/Views/NodeEditor+Rects.swift:64-69 | under sane constants the node search and the hit test agree on whether, and on which node, a point hits |
| EditorRects.HitInputCentre | Sources/Flow/Model/Patch+Gestures.swift:14-22 | hit round trip: the centre of input `k` of node `n` hits that input when no higher body covers it |
| EditorRects.HitOutputCentre | Sources/Flow/Model/Patch+Gestures.swift:14-22 | hit round trip: the centre of output `k` of node `n` hits that output when no higher body covers it |
| EditorGestures.ToLocal | Sources/Flow/Views/NodeEditor+Gestures.swift:41-43 | `toLocal` undoes the canvas transform: drawing the result gives back the screen point |
| EditorGestures.ToLocalSize | Sources/Flow/Views/NodeEditor+Gestures.swift:45-47 | a screen translation in canvas units, scaled back by the zoom |
| EditorGestures.ToLocalTranslates | Sources/Flow/Views/NodeEditor+Gestures.swift:41-47 | converting a translated point is translating the converted point by the converted translation |
| EditorGestures.Connect | Sources/Flow/Views/NodeEditor+Gestures.swift:15-28 | afterwards the input has exactly the new wire, every other input keeps its wires, and the nodes are untouched |
| EditorGestures.ConnectKeepsOneWirePerInput | Sources/Flow/Views/NodeEditor+Gestures.swift:14-28 | connecting preserves at most one wire per input |
| EditorGestures.ConnectEvents | Sources/Flow/Views/NodeEditor+Gestures.swift:19-27 | the notifications are the removals, then one addition of the new wire |
| EditorGestures.RemovalsExact | Sources/Flow/Views/NodeEditor+Gestures.swift:19-25 | every wire into the input, the new wire included if already present, is announced removed, and nothing else is |
| EditorGestures.RemovalsAscending | Sources/Flow/Views/NodeEditor+Gestures.swift:19-25 | no wire is announced removed twice |
| EditorGestures.AttachedWire | Sources/Flow/Views/NodeEditor+Gestures.swift:30-32 | a wire of the patch into the input, none exactly when there is none, and under one wire per input the only one |
| EditorGestures.MoveAll | Sources/Flow/Views/NodeEditor+Gestures.swift:34-39 | moving listed nodes in turn: listed unlocked nodes move by the offset, locked ones and unlisted ones stay, only positions change |
| EditorGestures.SortedSelection | Sources/Flow/Views/NodeEditor+Gestures.swift:104 | the selection enumerated, each index once |
| EditorGestures.GroupOrder | Sources/Flow/Views/NodeEditor+Gestures.swift:101-107 | the dragged node first, then the other selected nodes if it is selected, each once |
| EditorGestures.MoveGroup | Sources/Flow/Views/NodeEditor+Gestures.swift:101-107 | exactly the unlocked nodes moving with the dragged one move, each by the translation; the rest stay; the selection need name only nodes when the dragged node is selected |
| EditorGestures.RerouteOffset | Sources/Flow/Views/NodeEditor+Gestures.swift:68-77 | the loose end (output centre plus offset) is at the grabbed input's centre plus the translation |
| EditorGestures.Updating | Sources/Flow/Views/NodeEditor+Gestures.swift:51-80 | the live state by start hit: background gives a rubber band from start to pointer, a node gives a node drag, an output a new wire, a wired input picks its wire up, a bare input leaves the state as it was |
| EditorGestures.Reroute | Sources/Flow/Views/NodeEditor+Gestures.swift:112-120 | the grabbed wire is removed first; over an input its output is connected there, otherwise the wire is just gone |
| EditorGestures.OnEnded | Sources/Flow/Views/NodeEditor+Gestures.swift:81-133 | a tap never changes the patch and selects nothing, the node, or keeps the selection; a drag from the background selects the nodes meeting the band; wires change only on a drag; the selection need name only nodes for a drag from a selected node |
| GestureProperties.ConnectReplays | Sources/Flow/Views/NodeEditor+Gestures.swift:15-28 | applying `connect`'s notifications in order to the old patch gives the new patch |
| GestureProperties.MoveNodeReplays | Sources/Flow/Views/NodeEditor+Gestures.swift:34-39 | applying `moveNode`'s notification gives the new patch |
| GestureProperties.MoveAllReplays | Sources/Flow/Views/NodeEditor+Gestures.swift:101-107 | applying a group move's notifications gives the new patch |
| GestureProperties.RerouteReplays | Sources/Flow/Views/NodeEditor+Gestures.swift:112-120 | applying a reroute's notifications gives the new patch |
| GestureProperties.OnEndedReplays | Sources/Flow/Views/NodeEditor+Gestures.swift:81-133 | for every release, a host that applies the notifications in order ends with the editor's patch |
| GestureProperties.BackgroundDragKeepsPatch | Sources/Flow/Views/NodeEditor+Gestures.swift:92-100 | a drag from the background leaves the patch alone and fires nothing |
| GestureProperties.BareInputDragKeepsPatch | Sources/Flow/Views/NodeEditor+Gestures.swift:112-120 | a drag from an input with no wire changes nothing |
| GestureProperties.OnEndedKeepsOneWirePerInput | Sources/Flow/Views/NodeEditor+Gestures.swift:81-133 | every release preserves at most one wire per input |
| GestureProperties.RerouteKeepsOneWirePerInput | Sources/Flow/Views/NodeEditor+Gestures.swift:112-120 | rerouting preserves at most one wire per input |
| GestureProperties.NodeDragMovesGroup | Sources/Flow/Views/NodeEditor+Gestures.swift:101-107 | a drag from a node commits exactly the group move of that node |
| GestureProperties.OtherReleasesKeepNodes | Sources/Flow/Views/NodeEditor+Gestures.swift:91-131 | every release other than a drag from a node leaves all nodes as they were |
| GestureProperties.OnEndedKeepsLockedNodes | Sources/Flow/Views/NodeEditor+Gestures.swift:81-133 | no release moves a locked node or changes anything of a node but its position |
| GestureProperties.NodeDragCommitsPreview | Sources/Flow/Views/NodeEditor+Gestures.swift:101-107 | a node drag commits what it showed: every node ends at its position plus the offset it was drawn with |
| GestureProperties.GroupMoveIsPreview | Sources/Flow/Views/NodeEditor+Rects.swift:7-25 | the group move puts every node where `offset(for:)` draws it |
| GestureProperties.OutputDragIsConnect | Sources/Flow/Views/NodeEditor+Gestures.swift:108-111 | a drag from an output connects to the input under the pointer, if any, and otherwise does nothing |
| GestureProperties.OutputDragConnects | Sources/Flow/Views/NodeEditor+Gestures.swift:108-111 | released over an input, that input then has exactly the new wire, others keep theirs, and the addition is the last notification |
| GestureProperties.InputDragIsReroute | Sources/Flow/Views/NodeEditor+Gestures.swift:112-120 | a drag from a wired input commits the reroute of its wire to the input under the pointer |
| GestureProperties.InputDragReroutes | Sources/Flow/Views/NodeEditor+Gestures.swift:112-120 | the grabbed wire's removal is announced first; released nowhere it is just removed; released over another input it is replaced by a wire from its output to there |

## Left out

- Drawing, styling and text caching are not modelled: NodeEditor+Drawing.swift, NodeEditor+Style.swift, NodeEditor+Modifiers.swift, TextCache.swift and the SwiftUI view in NodeEditor.swift. They are rendering over opaque SwiftUI types.
- The hidden-wire filter is not modelled. It decides only what is drawn; the model keeps `hideWire` in the drag state.
- The connected-port sets used for drawing are not modelled, for the same reason.
- WorkspaceView.swift is not modelled. It holds platform gesture recognisers and floating-point pan/zoom state; the canvas transform is a parameter instead.
- `Sources/NodeEditor` and its tests are not modelled. They are an earlier revision that the package does not build.
- The demo app and the playground are not modelled; they are example data only.
- Floating-point rounding and `sqrt` are not modelled. Reals are exact, and the tap threshold compares squared distances.
- `+=` on points is not a separate member. It is `Add`, which `MoveNode` uses.
- The `CGSize.point` and `CGPoint.size` conversions are not modelled; the core does not use them.
- `CGPoint.simd` (a `Float` conversion) and `Color.magenta` are not modelled: rendering only.
- Equality of `PortType` (`custom(a) == custom(b)` exactly when `a == b`) and the fields of `Wire(from:to:)` have no members of their own: they are Dafny datatype equality and constructors. Equality of `InputID` and `OutputID` is likewise datatype equality; `Ports.AddressEquality` states it in the source's terms.
- Swift `Int` overflow of indices is not modelled. Indices are unbounded naturals, and an out-of-range index, which traps in Swift, is excluded by preconditions.
- `PatchLayout.RecursiveLayout`, `PatchLayout.LegacyRecursiveLayout` and `PatchLayout.CorrectedRecursiveLayout` exclude a cycle upstream of the root even where the consumed set passed in cuts it. The source terminates on such a patch, but the model's termination argument needs a rank that decreases into the root. Cycles elsewhere in the patch are covered.
- `PatchLayout.LegacyRecursiveLayout` states the exact height but not where each upstream node ends. Without a consumed set a later turn may lay the same node out again and move it; `LayoutExamples.SharedLegacyOutcome` shows this.
- `Geometry.RemovingPrefix` compares Unicode scalar values one at a time. Swift's `hasPrefix` and `dropFirst(prefix.count)` work on extended grapheme clusters under canonical equivalence. The two differ on strings such as `"e\u{301}x"` with prefix `"e"`: Swift finds no prefix, while the model removes it. The engine's core does not call this helper.
- `EditorGestures.AttachedWire`: when an input has several wires (which editing never produces), the source returns the first in unspecified set order; the model returns the least under `WireLeq`.
- `EditorGestures.RemovalsAscending`: the source announces removals in unspecified set order; the model fixes ascending `WireLeq` order.
- `EditorGestures.MoveGroup`: the other selected nodes move, and are announced, in ascending index order; the source's order is unspecified set order.
- `EditorGestures.OnEnded`: its own contract covers taps, the selection and when wires may change. What each kind of drag commits is stated by the `GestureProperties` lemmas about it.

## Findings

| source | as written | input that shows it | evidently intended | confidence | as-written member | corrected member |
|---|---|---|---|---|---|---|
| Sources/Flow/Model/Patch+Layout.swift:40 | each sibling subtree is placed at `point.y + height`, where `height` is set to the previous sibling's aggregate height alone (`height = rl.aggregateHeight`) | node 3 with three one-port leaves 0, 1, 2 feeding its inputs 0, 1, 2; root at the origin; default constants with `nodeSpacing` 40: leaves 1 and 2 are both placed at (-240, 80), and leaf 2 extends below the returned height of 140 | a running sum, as the function's documentation comment at line 9 ("height of all nodes in subtree") describes: the siblings are stacked 80 apart at y = 0, 80, 160, with height 280 | not executed | LayoutExamples.ThreeFeedersOverlap | PatchLayout.CorrectedRecursiveLayout |
