/**
 Point, size and rectangle arithmetic of the editor (Helpers.swift), over exact
 reals. Every operation the editor performs on coordinates is `+`, `-`, `*`,
 `/` or a minimum/maximum, so rationals model them without rounding.

 Containment and intersection come from CoreGraphics, whose code is not part
 of this model. They are defined here as assumptions: a rectangle is first
 standardized (negative extents flipped), it contains the half-open box
 `[minX, maxX) x [minY, maxY)`, and two rectangles intersect when their
 interiors overlap.
 */
module Geometry {
  import opened Options

  datatype Point = Point(x: real, y: real)
  datatype Size = Size(width: real, height: real)
  datatype Rect = Rect(origin: Point, size: Size)

  const Origin: Point := Point(0.0, 0.0)
  const ZeroSize: Size := Size(0.0, 0.0)

  function Min(a: real, b: real): real { if a <= b then a else b }
  function Max(a: real, b: real): real { if a >= b then a else b }
  function Abs(a: real): real { if a < 0.0 then -a else a }

  /** `point + size`: the point moved by a translation. */
  function Add(p: Point, s: Size): Point {
    Point(p.x + s.width, p.y + s.height)
  }

  /** `point - point`: the translation that carries `q` onto `p`. */
  function Sub(p: Point, q: Point): (d: Size)
    ensures Add(q, d) == p
  {
    Size(p.x - q.x, p.y - q.y)
  }

  /** `size + size`: composition of two translations. */
  function AddSizes(a: Size, b: Size): (s: Size)
    ensures forall p: Point {:trigger Add(p, s)} :: Add(p, s) == Add(Add(p, a), b)
  {
    Size(a.width + b.width, a.height + b.height)
  }

  /** Adding the difference of two points, then taking it back, are inverse. */
  lemma AddSubRoundTrip(p: Point, q: Point, s: Size)
    ensures Add(p, Sub(q, p)) == q
    ensures Sub(Add(p, s), p) == s
  {
  }

  /** `CGRect.center`: half the size past the origin. */
  function Center(r: Rect): (c: Point)
    ensures Sub(c, r.origin) == Sub(Add(r.origin, r.size), c)
  {
    Add(r.origin, Size(r.size.width / 2.0, r.size.height / 2.0))
  }

  /** `CGRect.offset(by:)`: the same rectangle, moved. */
  function Offset(r: Rect, d: Size): (r': Rect)
    ensures r'.size == r.size
    ensures Center(r') == Add(Center(r), d)
  {
    Rect(Add(r.origin, d), r.size)
  }

  /** `CGRect(a:b:)`: the rectangle spanned by two opposite corners, in either order. */
  function FromCorners(a: Point, b: Point): (r: Rect)
    ensures r.size.width >= 0.0 && r.size.height >= 0.0
    ensures r.origin == Point(Min(a.x, b.x), Min(a.y, b.y))
    ensures Add(r.origin, r.size) == Point(Max(a.x, b.x), Max(a.y, b.y))
  {
    Rect(Point(Min(a.x, b.x), Min(a.y, b.y)), Size(Abs(a.x - b.x), Abs(a.y - b.y)))
  }

  lemma FromCornersSymmetric(a: Point, b: Point)
    ensures FromCorners(a, b) == FromCorners(b, a)
  {
  }

  /**
   `distanceTo`, squared. The source takes a square root; for a non-negative
   threshold `t`, `sqrt(d2) > t` holds exactly when `d2 > t * t`.
   */
  function DistanceSquared(p: Point, q: Point): (d: real)
    ensures d >= 0.0
    ensures p == q ==> d == 0.0
  {
    SquareNonNegative(p.x - q.x);
    SquareNonNegative(p.y - q.y);
    (p.x - q.x) * (p.x - q.x) + (p.y - q.y) * (p.y - q.y)
  }

  lemma SquareNonNegative(a: real)
    ensures a * a >= 0.0
  {
    if a < 0.0 {
      assert a * a == (-a) * (-a);
    }
  }

  lemma DistanceSymmetric(p: Point, q: Point)
    ensures DistanceSquared(p, q) == DistanceSquared(q, p)
  {
    assert (p.x - q.x) * (p.x - q.x) == (q.x - p.x) * (q.x - p.x);
    assert (p.y - q.y) * (p.y - q.y) == (q.y - p.y) * (q.y - p.y);
  }

  function MinX(r: Rect): real { Min(r.origin.x, r.origin.x + r.size.width) }
  function MaxX(r: Rect): real { Max(r.origin.x, r.origin.x + r.size.width) }
  function MinY(r: Rect): real { Min(r.origin.y, r.origin.y + r.size.height) }
  function MaxY(r: Rect): real { Max(r.origin.y, r.origin.y + r.size.height) }

  /** `CGRect.contains(_:)`, assumed half-open on the standardized rectangle. */
  predicate Contains(r: Rect, p: Point) {
    MinX(r) <= p.x < MaxX(r) && MinY(r) <= p.y < MaxY(r)
  }

  /** `CGRect.intersects(_:)`, assumed to mean that the interiors overlap. */
  predicate Intersects(a: Rect, b: Rect) {
    MinX(a) < MaxX(b) && MinX(b) < MaxX(a) && MinY(a) < MaxY(b) && MinY(b) < MaxY(a)
  }

  /** `a` lies within `b` (with non-negative extents). */
  predicate Within(a: Rect, b: Rect) {
    MinX(b) <= MinX(a) && MaxX(a) <= MaxX(b) && MinY(b) <= MinY(a) && MaxY(a) <= MaxY(b)
  }

  lemma WithinContains(a: Rect, b: Rect, p: Point)
    requires Within(a, b) && Contains(a, p)
    ensures Contains(b, p)
  {
  }

  /** A rectangle with positive extents contains its own centre. */
  lemma ContainsCenter(r: Rect)
    requires r.size.width > 0.0 && r.size.height > 0.0
    ensures Contains(r, Center(r))
  {
  }

  /** Moving a rectangle and a point by the same translation keeps containment. */
  lemma OffsetContains(r: Rect, p: Point, d: Size)
    ensures Contains(Offset(r, d), Add(p, d)) <==> Contains(r, p)
  {
  }

  /**
   `String.removing(prefix:)`: the rest of `s` after `prefix`, or nothing when
   `s` does not start with `prefix`.
   */
  function RemovingPrefix(s: string, prefix: string): (r: Option<string>)
    ensures r.None? <==> !(prefix <= s)
    ensures r.Some? ==> prefix + r.value == s
  {
    if prefix <= s then
      assert prefix + s[|prefix|..] == s;
      Some(s[|prefix|..])
    else
      None
  }
}
