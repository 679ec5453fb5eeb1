/**
 * Polygon points and the axis-aligned bounding box the normaliser derives
 * from them (the list comprehensions and the `min`/`max` calls of
 * `perform_ocr`). Coordinates are exact reals: the rounding of the result to
 * two decimals is not part of this model.
 */
module Geometry {

  /** One vertex `[x, y]` of a detected text region. */
  datatype Point = Point(x: real, y: real)

  /** The `bbox` object of a text block. */
  datatype BoundingBox = BoundingBox(x: real, y: real, width: real, height: real)

  /** `p` lies inside `b` (borders included). */
  predicate Contains(b: BoundingBox, p: Point) {
    b.x <= p.x <= b.x + b.width && b.y <= p.y <= b.y + b.height
  }

  /** `[point[0] for point in bbox_points]` */
  function Xs(polygon: seq<Point>): seq<real> {
    seq(|polygon|, i requires 0 <= i < |polygon| => polygon[i].x)
  }

  /** `[point[1] for point in bbox_points]` */
  function Ys(polygon: seq<Point>): seq<real> {
    seq(|polygon|, i requires 0 <= i < |polygon| => polygon[i].y)
  }

  /** Python's `min` on a non-empty list: an element no other element is below. */
  function Min(s: seq<real>): (m: real)
    requires |s| > 0
    ensures m in s
    ensures forall i :: 0 <= i < |s| ==> m <= s[i]
  {
    if |s| == 1 then s[0]
    else
      var rest := Min(s[1..]);
      if s[0] <= rest then s[0] else rest
  }

  /** Python's `max` on a non-empty list: an element no other element is above. */
  function Max(s: seq<real>): (m: real)
    requires |s| > 0
    ensures m in s
    ensures forall i :: 0 <= i < |s| ==> s[i] <= m
  {
    if |s| == 1 then s[0]
    else
      var rest := Max(s[1..]);
      if rest <= s[0] then s[0] else rest
  }

  /**
   * The bounding box of a polygon: `x = min(xs)`, `y = min(ys)`,
   * `width = max(xs) - x`, `height = max(ys) - y`. It encloses every point,
   * and each of its four sides touches some point. `min` of an empty list
   * raises, so the polygon must have a point.
   */
  function Enclose(polygon: seq<Point>): (b: BoundingBox)
    requires |polygon| > 0
    ensures b.width >= 0.0 && b.height >= 0.0
    ensures forall i :: 0 <= i < |polygon| ==> Contains(b, polygon[i])
    ensures exists i :: 0 <= i < |polygon| && polygon[i].x == b.x
    ensures exists i :: 0 <= i < |polygon| && polygon[i].y == b.y
    ensures exists i :: 0 <= i < |polygon| && polygon[i].x == b.x + b.width
    ensures exists i :: 0 <= i < |polygon| && polygon[i].y == b.y + b.height
  {
    var xs, ys := Xs(polygon), Ys(polygon);
    var x, y := Min(xs), Min(ys);
    assert forall i :: 0 <= i < |polygon| ==> xs[i] == polygon[i].x && ys[i] == polygon[i].y;
    BoundingBox(x, y, Max(xs) - x, Max(ys) - y)
  }

  /** No axis-aligned box that holds every point is smaller than `Enclose`'s. */
  lemma EncloseIsTightest(polygon: seq<Point>, c: BoundingBox)
    requires |polygon| > 0
    requires forall i :: 0 <= i < |polygon| ==> Contains(c, polygon[i])
    ensures var b := Enclose(polygon);
      c.x <= b.x && c.y <= b.y && b.x + b.width <= c.x + c.width && b.y + b.height <= c.y + c.height
  {
    var b := Enclose(polygon);
    var i0 :| 0 <= i0 < |polygon| && polygon[i0].x == b.x;
    var i1 :| 0 <= i1 < |polygon| && polygon[i1].y == b.y;
    var i2 :| 0 <= i2 < |polygon| && polygon[i2].x == b.x + b.width;
    var i3 :| 0 <= i3 < |polygon| && polygon[i3].y == b.y + b.height;
    assert Contains(c, polygon[i0]) && Contains(c, polygon[i1]);
    assert Contains(c, polygon[i2]) && Contains(c, polygon[i3]);
  }

  /**
   * The order in which the recognizer lists a polygon's vertices does not
   * matter: polygons with the same points have the same box.
   */
  lemma EncloseIgnoresVertexOrder(p: seq<Point>, q: seq<Point>)
    requires |p| > 0 && |q| > 0 && multiset(p) == multiset(q)
    ensures Enclose(p) == Enclose(q)
  {
    var b, c := Enclose(p), Enclose(q);
    forall j | 0 <= j < |q| ensures Contains(b, q[j]) {
      assert q[j] in multiset(p);
      var i :| 0 <= i < |p| && p[i] == q[j];
    }
    forall i | 0 <= i < |p| ensures Contains(c, p[i]) {
      assert p[i] in multiset(q);
      var j :| 0 <= j < |q| && q[j] == p[i];
    }
    EncloseIsTightest(q, b);
    EncloseIsTightest(p, c);
  }

  /** The worked example of a typical quadrilateral: corners (1,1) and (5,3). */
  lemma EncloseExample()
    ensures Enclose([Point(1.0, 1.0), Point(5.0, 1.0), Point(5.0, 3.0), Point(1.0, 3.0)])
         == BoundingBox(1.0, 1.0, 4.0, 2.0)
  {
    var polygon := [Point(1.0, 1.0), Point(5.0, 1.0), Point(5.0, 3.0), Point(1.0, 3.0)];
    EncloseIsTightest(polygon, BoundingBox(1.0, 1.0, 4.0, 2.0));
  }
}
