/**
 `stackedLayout` (Patch+Layout.swift, and identically Patch.swift): a manual
 grid. Column `c` is placed `c` node widths plus spacings right of the origin,
 and each column's nodes are stacked downwards from the origin's y, each one
 its own height below the previous, with the node spacing between them except
 in the last column.

 A node listed more than once is moved once per listing; the last listing, in
 column-major order, decides where it ends up.
 */
module Stacking {
  import opened Geometry
  import opened Ports
  import opened Nodes
  import opened Patches

  /** `(c, k)` names the `k`-th entry of column `c`. */
  predicate IsEntry(columns: seq<seq<NodeIndex>>, c: int, k: int) {
    0 <= c < |columns| && 0 <= k < |columns[c]|
  }

  /** Every listed index names a node; the source traps on any other. */
  ghost predicate EntriesInRange(columns: seq<seq<NodeIndex>>, n: nat) {
    forall c, k :: IsEntry(columns, c, k) ==> columns[c][k] < n
  }

  /** Entry `(c1, k1)` comes before the cursor `(c, k)` in column-major order. */
  predicate Before(c1: int, k1: int, c: int, k: int) {
    c1 < c || (c1 == c && k1 < k)
  }

  /** The spacing below each node of column `c`: none in the last column. */
  function Gap(columns: seq<seq<NodeIndex>>, c: nat, layout: LayoutConstants): real {
    if c == |columns| - 1 then 0.0 else layout.nodeSpacing
  }

  /** The x of column `c`. */
  function ColumnX(origin: Point, c: nat, layout: LayoutConstants): real {
    origin.x + (c as real) * (layout.nodeWidth + layout.nodeSpacing)
  }

  /** The sum of the heights of the first `k` nodes of `stack`, each with `gap` added. */
  function StackOffset(nodes: seq<Node>, stack: seq<NodeIndex>, k: nat, gap: real, layout: LayoutConstants): real
    requires k <= |stack|
    requires forall j :: 0 <= j < |stack| ==> stack[j] < |nodes|
  {
    if k == 0 then 0.0 else StackOffset(nodes, stack, k - 1, gap, layout) + NodeHeight(nodes[stack[k - 1]], layout) + gap
  }

  /** Under sane constants every node has positive height. */
  lemma NodeHeightPositive(n: Node, layout: LayoutConstants)
    requires SaneLayout(layout)
    ensures NodeHeight(n, layout) > 0.0
  {
    var pitch := layout.portSize.height + layout.portSpacing;
    assert (PortRows(n) as real) * pitch >= 0.0;
  }

  /** Each node of a stack starts at or below the bottom of every node above it. */
  lemma {:induction false} StackOffsetGrows(nodes: seq<Node>, stack: seq<NodeIndex>, k1: nat, k2: nat, gap: real,
                                            layout: LayoutConstants)
    requires SaneLayout(layout) && gap >= 0.0
    requires k1 < k2 <= |stack|
    requires forall j :: 0 <= j < |stack| ==> stack[j] < |nodes|
    ensures StackOffset(nodes, stack, k1, gap, layout) + NodeHeight(nodes[stack[k1]], layout)
            <= StackOffset(nodes, stack, k2, gap, layout)
    decreases k2
  {
    if k2 > k1 + 1 {
      StackOffsetGrows(nodes, stack, k1, k2 - 1, gap, layout);
      NodeHeightPositive(nodes[stack[k2 - 1]], layout);
    }
  }

  /** Where entry `(c, k)` is placed. */
  function StackPoint(patch: Patch, origin: Point, columns: seq<seq<NodeIndex>>, c: nat, k: nat,
                      layout: LayoutConstants): Point
    requires IsEntry(columns, c, k) && EntriesInRange(columns, |patch.nodes|)
  {
    Point(ColumnX(origin, c, layout),
          origin.y + StackOffset(patch.nodes, columns[c], k, Gap(columns, c, layout), layout))
  }

  /** No entry before the cursor lists `j`. */
  ghost predicate UntouchedBy(columns: seq<seq<NodeIndex>>, j: NodeIndex, c: int, k: int) {
    forall c1, k1 :: IsEntry(columns, c1, k1) && Before(c1, k1, c, k) ==> columns[c1][k1] != j
  }

  /** No entry after `(c1, k1)` and before the cursor lists the same node. */
  ghost predicate LastBefore(columns: seq<seq<NodeIndex>>, c1: int, k1: int, c: int, k: int)
    requires IsEntry(columns, c1, k1)
  {
    forall c2, k2 :: IsEntry(columns, c2, k2) && Before(c1, k1, c2, k2) && Before(c2, k2, c, k) ==>
      columns[c2][k2] != columns[c1][k1]
  }

  /** What holds once the entries before the cursor `(c, k)` are placed. */
  ghost predicate PlacedBefore(patch: Patch, r: Patch, origin: Point, columns: seq<seq<NodeIndex>>, c: int, k: int,
                               layout: LayoutConstants)
    requires EntriesInRange(columns, |patch.nodes|)
  {
    && SameShape(patch, r)
    && (forall j :: 0 <= j < |patch.nodes| && UntouchedBy(columns, j, c, k) ==> r.nodes[j] == patch.nodes[j])
    && (forall c1, k1 :: IsEntry(columns, c1, k1) && Before(c1, k1, c, k) && LastBefore(columns, c1, k1, c, k) ==>
          r.nodes[columns[c1][k1]].position == StackPoint(patch, origin, columns, c1, k1, layout))
  }

  /** `r` with node `n` moved to `p`. */
  function Place(r: Patch, n: NodeIndex, p: Point): Patch
    requires n < |r.nodes|
  {
    r.(nodes := r.nodes[n := r.nodes[n].(position := p)])
  }

  /** Placing the entry under the cursor moves the cursor one entry on. */
  lemma PlaceStep(patch: Patch, r: Patch, origin: Point, columns: seq<seq<NodeIndex>>, c: nat, k: nat,
                  layout: LayoutConstants)
    requires EntriesInRange(columns, |patch.nodes|) && IsEntry(columns, c, k)
    requires PlacedBefore(patch, r, origin, columns, c, k, layout)
    ensures PlacedBefore(patch, Place(r, columns[c][k], StackPoint(patch, origin, columns, c, k, layout)),
                         origin, columns, c, k + 1, layout)
  {
    var n := columns[c][k];
    var r' := Place(r, n, StackPoint(patch, origin, columns, c, k, layout));
    forall j | 0 <= j < |patch.nodes| && UntouchedBy(columns, j, c, k + 1)
      ensures r'.nodes[j] == patch.nodes[j]
    {
      assert columns[c][k] != j;
      assert UntouchedBy(columns, j, c, k);
    }
    forall c1, k1 | IsEntry(columns, c1, k1) && Before(c1, k1, c, k + 1) && LastBefore(columns, c1, k1, c, k + 1)
      ensures r'.nodes[columns[c1][k1]].position == StackPoint(patch, origin, columns, c1, k1, layout)
    {
      if c1 != c || k1 != k {
        assert Before(c1, k1, c, k) && Before(c, k, c, k + 1);
        assert columns[c1][k1] != n;
        assert LastBefore(columns, c1, k1, c, k);
      }
    }
  }

  /** Having placed a whole column is having placed everything before the next one. */
  lemma NextColumn(patch: Patch, r: Patch, origin: Point, columns: seq<seq<NodeIndex>>, c: nat,
                   layout: LayoutConstants)
    requires EntriesInRange(columns, |patch.nodes|) && c < |columns|
    requires PlacedBefore(patch, r, origin, columns, c, |columns[c]|, layout)
    ensures PlacedBefore(patch, r, origin, columns, c + 1, 0, layout)
  {
    assert forall c1, k1 :: IsEntry(columns, c1, k1) ==> (Before(c1, k1, c, |columns[c]|) <==> Before(c1, k1, c + 1, 0));
    forall j | 0 <= j < |patch.nodes| && UntouchedBy(columns, j, c + 1, 0)
      ensures UntouchedBy(columns, j, c, |columns[c]|)
    {
    }
    forall c1, k1 | IsEntry(columns, c1, k1) && Before(c1, k1, c + 1, 0) && LastBefore(columns, c1, k1, c + 1, 0)
      ensures LastBefore(columns, c1, k1, c, |columns[c]|)
    {
    }
  }

  /** Before the first entry nothing is placed. */
  lemma NothingBefore(patch: Patch, origin: Point, columns: seq<seq<NodeIndex>>, layout: LayoutConstants)
    requires EntriesInRange(columns, |patch.nodes|)
    ensures PlacedBefore(patch, patch, origin, columns, 0, 0, layout)
  {
    assert forall c1, k1 :: IsEntry(columns, c1, k1) ==> !Before(c1, k1, 0, 0);
  }

  /**
   Within a column the stacked nodes do not overlap: each entry is placed at
   the column's x, at or below the bottom of every entry above it.
   */
  lemma StackPointsDescend(patch: Patch, origin: Point, columns: seq<seq<NodeIndex>>, c: nat, k1: nat, k2: nat,
                           layout: LayoutConstants)
    requires SaneLayout(layout) && layout.nodeSpacing >= 0.0
    requires EntriesInRange(columns, |patch.nodes|) && IsEntry(columns, c, k2) && k1 < k2
    ensures StackPoint(patch, origin, columns, c, k1, layout).x == StackPoint(patch, origin, columns, c, k2, layout).x
    ensures StackPoint(patch, origin, columns, c, k1, layout).y + NodeHeight(patch.nodes[columns[c][k1]], layout)
            <= StackPoint(patch, origin, columns, c, k2, layout).y
  {
    StackOffsetGrows(patch.nodes, columns[c], k1, k2, Gap(columns, c, layout), layout);
  }

  /** The cursor `(c, k)` is an entry or the end of the grid. */
  predicate IsCursor(columns: seq<seq<NodeIndex>>, c: int, k: int) {
    IsEntry(columns, c, k) || (0 <= c < |columns| && k == |columns[c]|) || (c == |columns| && k == 0)
  }

  /** The patch once every entry before the cursor `(c, k)` has been placed, in order. */
  function PlaceAll(patch: Patch, origin: Point, columns: seq<seq<NodeIndex>>, c: nat, k: nat,
                    layout: LayoutConstants): (r: Patch)
    requires EntriesInRange(columns, |patch.nodes|) && IsCursor(columns, c, k)
    ensures SameShape(patch, r)
    decreases c, k
  {
    if k > 0 then
      Place(PlaceAll(patch, origin, columns, c, k - 1, layout), columns[c][k - 1],
            StackPoint(patch, origin, columns, c, k - 1, layout))
    else if c > 0 then
      PlaceAll(patch, origin, columns, c - 1, |columns[c - 1]|, layout)
    else
      patch
  }

  /** What the placements before a cursor achieve: the invariant of the two loops. */
  lemma {:induction false} PlaceAllPlaces(patch: Patch, origin: Point, columns: seq<seq<NodeIndex>>, c: nat, k: nat,
                                          layout: LayoutConstants)
    requires EntriesInRange(columns, |patch.nodes|) && IsCursor(columns, c, k)
    ensures PlacedBefore(patch, PlaceAll(patch, origin, columns, c, k, layout), origin, columns, c, k, layout)
    decreases c, k
  {
    if k > 0 {
      PlaceAllPlaces(patch, origin, columns, c, k - 1, layout);
      PlaceStep(patch, PlaceAll(patch, origin, columns, c, k - 1, layout), origin, columns, c, k - 1, layout);
    } else if c > 0 {
      PlaceAllPlaces(patch, origin, columns, c - 1, |columns[c - 1]|, layout);
      NextColumn(patch, PlaceAll(patch, origin, columns, c - 1, |columns[c - 1]|, layout), origin, columns, c - 1, layout);
    } else {
      NothingBefore(patch, origin, columns, layout);
    }
  }

  /** One pass of the inner loop: the entry goes to the running offset, which then grows by its height and gap. */
  lemma StackStep(patch: Patch, origin: Point, columns: seq<seq<NodeIndex>>, c: nat, k: nat,
                  layout: LayoutConstants, y: real)
    requires EntriesInRange(columns, |patch.nodes|) && IsEntry(columns, c, k)
    requires y == StackOffset(patch.nodes, columns[c], k, Gap(columns, c, layout), layout)
    ensures var r := PlaceAll(patch, origin, columns, c, k + 1, layout);
            && r == Place(PlaceAll(patch, origin, columns, c, k, layout), columns[c][k],
                          Point(ColumnX(origin, c, layout), origin.y + y))
            && y + NodeHeight(r.nodes[columns[c][k]], layout) + Gap(columns, c, layout)
               == StackOffset(patch.nodes, columns[c], k + 1, Gap(columns, c, layout), layout)
  {
    var r := PlaceAll(patch, origin, columns, c, k + 1, layout);
    SameShapeKeepsHeights(patch, r, columns[c][k], layout);
  }

  /**
   Once every entry is placed: only positions have changed, a node no column
   lists is untouched, and the last listing of each node decides its position.
   */
  lemma PlaceAllComplete(patch: Patch, origin: Point, columns: seq<seq<NodeIndex>>, layout: LayoutConstants, r: Patch)
    requires EntriesInRange(columns, |patch.nodes|)
    requires r == PlaceAll(patch, origin, columns, |columns|, 0, layout)
    ensures SameShape(patch, r)
    ensures forall j :: 0 <= j < |patch.nodes| && (forall c, k :: IsEntry(columns, c, k) ==> columns[c][k] != j) ==>
              r.nodes[j] == patch.nodes[j]
    ensures forall c, k :: IsEntry(columns, c, k) && LastBefore(columns, c, k, |columns|, 0) ==>
              r.nodes[columns[c][k]].position == StackPoint(patch, origin, columns, c, k, layout)
  {
    PlaceAllPlaces(patch, origin, columns, |columns|, 0, layout);
    forall j | 0 <= j < |patch.nodes| && (forall c, k :: IsEntry(columns, c, k) ==> columns[c][k] != j)
      ensures UntouchedBy(columns, j, |columns|, 0)
    {
    }
    forall c, k | IsEntry(columns, c, k) && LastBefore(columns, c, k, |columns|, 0)
      ensures Before(c, k, |columns|, 0)
    {
    }
  }

  /** The body of `stackedLayout`'s outer loop: stacks column `column`. */
  method StackColumn(patch: Patch, r0: Patch, origin: Point, columns: seq<seq<NodeIndex>>, column: nat,
                     layout: LayoutConstants)
    returns (r: Patch)
    requires EntriesInRange(columns, |patch.nodes|) && column < |columns|
    requires r0 == PlaceAll(patch, origin, columns, column, 0, layout)
    ensures r == PlaceAll(patch, origin, columns, column + 1, 0, layout)
  {
    r := r0;
    var nodeStack := columns[column];
    var yOffset := 0.0;
    var xPos := ColumnX(origin, column, layout);
    var k := 0;
    while k < |nodeStack|
      invariant k <= |nodeStack|
      invariant yOffset == StackOffset(patch.nodes, nodeStack, k, Gap(columns, column, layout), layout)
      invariant r == PlaceAll(patch, origin, columns, column, k, layout)
    {
      var nodeIndex := nodeStack[k];
      StackStep(patch, origin, columns, column, k, layout, yOffset);
      r := Place(r, nodeIndex, Point(xPos, origin.y + yOffset));
      var nodeHeight := NodeHeight(r.nodes[nodeIndex], layout);
      yOffset := yOffset + nodeHeight;
      if column != |columns| - 1 {
        yOffset := yOffset + layout.nodeSpacing;
      }
      k := k + 1;
    }
  }

  /**
   `stackedLayout`. Only positions change; a node no column lists is
   untouched; the last listing of each node decides its position, by the grid
   formula.
   */
  method StackedLayout(patch: Patch, origin: Point, columns: seq<seq<NodeIndex>>, layout: LayoutConstants)
    returns (r: Patch)
    requires EntriesInRange(columns, |patch.nodes|)
    ensures SameShape(patch, r)
    ensures forall j :: 0 <= j < |patch.nodes| && (forall c, k :: IsEntry(columns, c, k) ==> columns[c][k] != j) ==>
              r.nodes[j] == patch.nodes[j]
    ensures forall c, k :: IsEntry(columns, c, k) && LastBefore(columns, c, k, |columns|, 0) ==>
              r.nodes[columns[c][k]].position == StackPoint(patch, origin, columns, c, k, layout)
  {
    r := patch;
    var column := 0;
    while column < |columns|
      invariant column <= |columns|
      invariant r == PlaceAll(patch, origin, columns, column, 0, layout)
    {
      r := StackColumn(patch, r, origin, columns, column, layout);
      column := column + 1;
    }
    PlaceAllComplete(patch, origin, columns, layout, r);
  }
}
