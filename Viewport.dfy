/**
 * The viewport over the floor-plan image: a translation `(x, y)` followed by a uniform
 * `scale`, applied with its origin at the top-left corner of the image, so that a point
 * `p` of the image is shown at `p * scale + (x, y)` in the container.  Wheel zoom anchored
 * at the cursor, the zoom buttons, dragging, and the unprojection with bounds check used
 * to place a node.  All arithmetic is over the reals.
 */
module Viewport {
  import opened Wrappers

  datatype Point = Point(x: real, y: real)

  datatype Transform = Transform(x: real, y: real, scale: real)

  /** Smallest scale any update produces. */
  const MinScale: real := 0.1
  /** Largest scale the wheel produces; the zoom-in button is not bounded by it. */
  const MaxWheelScale: real := 10.0
  /** Scale change per unit of wheel delta, relative to the current scale. */
  const WheelSensitivity: real := 0.001
  /** Scale change of one press of a zoom button. */
  const ZoomStep: real := 0.2
  /** The transform a fresh editor, an image upload, a reset and a clear start from. */
  const Identity: Transform := Transform(0.0, 0.0, 1.0)

  function Min(a: real, b: real): real { if a <= b then a else b }
  function Max(a: real, b: real): real { if a >= b then a else b }

  /** `Math.min(Math.max(s, 0.1), 10)`. */
  function ClampWheelScale(s: real): (r: real)
    ensures MinScale <= r <= MaxWheelScale
    ensures MinScale <= s <= MaxWheelScale ==> r == s
    ensures s < MinScale ==> r == MinScale
    ensures s > MaxWheelScale ==> r == MaxWheelScale
  {
    Min(Max(s, MinScale), MaxWheelScale)
  }

  /** The image point shown at container point `p`: `(p - offset) / scale`. */
  function Unproject(t: Transform, p: Point): (r: Point)
    requires t.scale != 0.0
    ensures r.x * t.scale + t.x == p.x && r.y * t.scale + t.y == p.y
  {
    DivTimes(p.x - t.x, t.scale);
    DivTimes(p.y - t.y, t.scale);
    Point((p.x - t.x) / t.scale, (p.y - t.y) / t.scale)
  }

  /** The container point at which image point `q` is shown. */
  function Project(t: Transform, q: Point): (r: Point)
    ensures t.scale != 0.0 ==> (r.x - t.x) / t.scale == q.x && (r.y - t.y) / t.scale == q.y
  {
    Point(q.x * t.scale + t.x, q.y * t.scale + t.y)
  }

  lemma UnprojectProject(t: Transform, q: Point)
    requires t.scale != 0.0
    ensures Unproject(t, Project(t, q)) == q
  {
    assert (q.x * t.scale + t.x - t.x) / t.scale == q.x;
    assert (q.y * t.scale + t.y - t.y) / t.scale == q.y;
  }

  lemma DivTimes(a: real, s: real)
    requires s != 0.0
    ensures a / s * s == a
  {
  }

  lemma ProjectUnproject(t: Transform, p: Point)
    requires t.scale != 0.0
    ensures Project(t, Unproject(t, p)) == p
  {
    var u := Unproject(t, p);
    DivTimes(p.x - t.x, t.scale);
    DivTimes(p.y - t.y, t.scale);
    assert Project(t, u).x == p.x;
    assert Project(t, u).y == p.y;
  }

  /**
   * `handleWheel`: the scale moves by `-deltaY * 0.001` of itself and is clamped to
   * `[0.1, 10]`; the offset moves so that the point under the cursor stays put.
   * `cursor` is the pointer relative to the container.
   */
  function WheelZoom(t: Transform, cursor: Point, deltaY: real): (r: Transform)
    requires t.scale != 0.0
    ensures r.scale == ClampWheelScale(t.scale + -deltaY * WheelSensitivity * t.scale)
    ensures MinScale <= r.scale <= MaxWheelScale
  {
    var newScale := ClampWheelScale(t.scale + -deltaY * WheelSensitivity * t.scale);
    var ratio := newScale / t.scale;
    Transform(cursor.x - (cursor.x - t.x) * ratio, cursor.y - (cursor.y - t.y) * ratio, newScale)
  }

  /** One coordinate of the anchoring argument: `(c - (c - (c - o) * (n / s))) / n == (c - o) / s`. */
  lemma AnchorCoordinate(c: real, o: real, s: real, n: real)
    requires s != 0.0 && n != 0.0
    ensures (c - (c - (c - o) * (n / s))) / n == (c - o) / s
  {
    var d := c - o;
    assert c - (c - d * (n / s)) == d * (n / s);
    assert d * (n / s) == (d / s) * n;
    assert (d / s) * n / n == d / s;
  }

  /** The image point under the cursor is the same before and after a wheel zoom. */
  lemma WheelZoomKeepsCursorPoint(t: Transform, cursor: Point, deltaY: real)
    requires t.scale != 0.0
    ensures Unproject(WheelZoom(t, cursor, deltaY), cursor) == Unproject(t, cursor)
  {
    var r := WheelZoom(t, cursor, deltaY);
    AnchorCoordinate(cursor.x, t.x, t.scale, r.scale);
    AnchorCoordinate(cursor.y, t.y, t.scale, r.scale);
  }

  /**
   * Within the wheel's range, scrolling up (negative delta) never zooms out and scrolling
   * down never zooms in.
   */
  lemma WheelZoomDirection(t: Transform, cursor: Point, deltaY: real)
    requires MinScale <= t.scale <= MaxWheelScale
    ensures deltaY <= 0.0 ==> WheelZoom(t, cursor, deltaY).scale >= t.scale
    ensures deltaY >= 0.0 ==> WheelZoom(t, cursor, deltaY).scale <= t.scale
  {
    var step := -deltaY * WheelSensitivity * t.scale;
    assert deltaY <= 0.0 ==> step >= 0.0;
    assert deltaY >= 0.0 ==> step <= 0.0;
  }

  /** The zoom-in button: `scale + 0.2`, no upper bound, offset unchanged. */
  function ZoomIn(t: Transform): (r: Transform)
    ensures r.x == t.x && r.y == t.y
    ensures r.scale > t.scale
  {
    t.(scale := t.scale + ZoomStep)
  }

  /** The zoom-out button: `Math.max(0.1, scale - 0.2)`, offset unchanged. */
  function ZoomOut(t: Transform): (r: Transform)
    ensures r.x == t.x && r.y == t.y
    ensures r.scale >= MinScale
    ensures t.scale >= MinScale ==> r.scale <= t.scale
    ensures r.scale == MinScale || r.scale == t.scale - ZoomStep
  {
    t.(scale := Max(MinScale, t.scale - ZoomStep))
  }

  /** Zooming out right after zooming in returns to the same transform. */
  lemma ZoomOutUndoesZoomIn(t: Transform)
    requires t.scale >= MinScale
    ensures ZoomOut(ZoomIn(t)) == t
  {
  }

  /** Zooming in after zooming out returns to the same transform unless the floor was hit. */
  lemma ZoomInUndoesZoomOut(t: Transform)
    requires t.scale >= MinScale + ZoomStep
    ensures ZoomIn(ZoomOut(t)) == t
  {
  }

  /** The zoom-in button can leave the wheel's range: from scale 10 it reaches 10.2. */
  lemma ZoomInExceedsWheelRange()
    ensures ZoomIn(Transform(0.0, 0.0, MaxWheelScale)).scale > MaxWheelScale
  {
  }

  /** `startPan` records the pointer relative to the current offset. */
  function DragOrigin(t: Transform, client: Point): (r: Point)
    ensures Point(r.x + t.x, r.y + t.y) == client
  {
    Point(client.x - t.x, client.y - t.y)
  }

  /** `doPan` while dragging: the offset becomes the pointer minus the recorded origin. */
  function PanTo(t: Transform, origin: Point, client: Point): (r: Transform)
    ensures r.scale == t.scale
    ensures Point(r.x + origin.x, r.y + origin.y) == client
  {
    t.(x := client.x - origin.x, y := client.y - origin.y)
  }

  /** Moving the pointer back to where the drag began restores the offset. */
  lemma PanBackRestores(t: Transform, start: Point)
    ensures PanTo(t, DragOrigin(t, start), start) == t
  {
  }

  /** Only the latest pointer position of a drag matters. */
  lemma PanForgetsPath(t: Transform, origin: Point, c1: Point, c2: Point)
    ensures PanTo(PanTo(t, origin, c1), origin, c2) == PanTo(t, origin, c2)
  {
  }

  /** The image point grabbed at the start of a drag stays under the pointer. */
  lemma PanKeepsGrabbedPoint(t: Transform, start: Point, client: Point)
    requires t.scale != 0.0
    ensures Unproject(PanTo(t, DragOrigin(t, start), client), client) == Unproject(t, start)
  {
  }

  /** The bounds check of a click: inside `[0, w] x [0, h]`, edges included. */
  predicate InImage(p: Point, w: real, h: real) {
    0.0 <= p.x <= w && 0.0 <= p.y <= h
  }

  /** `Math.round`: the nearest integer, halves rounded up. */
  function RoundHalfUp(v: real): (r: int)
    ensures v - 0.5 < r as real <= v + 0.5
  {
    (v + 0.5).Floor
  }

  lemma RoundHalfUpOfInteger(n: int)
    ensures RoundHalfUp(n as real) == n
  {
  }

  /** Rounding is monotone. */
  lemma RoundHalfUpMonotone(u: real, v: real)
    requires u <= v
    ensures RoundHalfUp(u) <= RoundHalfUp(v)
  {
  }

  /**
   * The stored value of one coordinate: in percentage mode the percentage of the image
   * extent rounded to two decimals, in pixel mode the pixel rounded to an integer.
   */
  function StoredCoordinate(raw: real, extent: real, usePercentage: bool): (r: real)
    requires usePercentage ==> extent != 0.0
    ensures usePercentage ==> raw / extent * 100.0 - 0.005 < r <= raw / extent * 100.0 + 0.005
    ensures usePercentage ==> r * 100.0 == (r * 100.0).Floor as real
    ensures !usePercentage ==> raw - 0.5 < r <= raw + 0.5 && r == r.Floor as real
  {
    if usePercentage then
      var n := RoundHalfUp(raw / extent * 100.0 * 100.0);
      assert (n as real) / 100.0 * 100.0 == n as real;
      (n as real) / 100.0
    else
      RoundHalfUp(raw) as real
  }

  /**
   * The position a canvas click stores for a new node, or None when the unprojected
   * click falls outside the image of width `w` and height `h`.
   */
  function Placement(t: Transform, click: Point, w: real, h: real, usePercentage: bool): (r: Option<Point>)
    requires t.scale != 0.0
    requires usePercentage ==> w != 0.0 && h != 0.0
    ensures r.Some? <==> InImage(Unproject(t, click), w, h)
    ensures r.Some? ==>
              r.value.x == StoredCoordinate(Unproject(t, click).x, w, usePercentage) &&
              r.value.y == StoredCoordinate(Unproject(t, click).y, h, usePercentage)
  {
    var raw := Unproject(t, click);
    if InImage(raw, w, h) then
      Some(Point(StoredCoordinate(raw.x, w, usePercentage), StoredCoordinate(raw.y, h, usePercentage)))
    else
      None
  }

  /** A percentage coordinate of a point inside the image lies in `[0, 100]`. */
  lemma PercentageInRange(raw: real, extent: real)
    requires 0.0 <= raw <= extent && extent != 0.0
    ensures 0.0 <= StoredCoordinate(raw, extent, true) <= 100.0
  {
    var v := raw / extent * 100.0 * 100.0;
    assert 0.0 <= raw / extent <= 1.0;
    assert 0.0 <= v <= 10000.0;
    RoundHalfUpMonotone(0.0, v);
    RoundHalfUpMonotone(v, 10000.0);
    RoundHalfUpOfInteger(0);
    RoundHalfUpOfInteger(10000);
  }

  /** Every placed node in percentage mode gets coordinates in `[0, 100] x [0, 100]`. */
  lemma PlacementPercentageInRange(t: Transform, click: Point, w: real, h: real)
    requires t.scale != 0.0 && w != 0.0 && h != 0.0
    requires Placement(t, click, w, h, true).Some?
    ensures var p := Placement(t, click, w, h, true).value;
            0.0 <= p.x <= 100.0 && 0.0 <= p.y <= 100.0
  {
    var raw := Unproject(t, click);
    PercentageInRange(raw.x, w);
    PercentageInRange(raw.y, h);
  }

  /** A node placed onto a point of the image is shown back where the click was. */
  lemma PlacementShownAtClick(t: Transform, click: Point, w: real, h: real)
    requires t.scale != 0.0
    requires Placement(t, click, w, h, false).Some?
    requires Unproject(t, click).x == Unproject(t, click).x.Floor as real
    requires Unproject(t, click).y == Unproject(t, click).y.Floor as real
    ensures Project(t, Placement(t, click, w, h, false).value) == click
  {
    var raw := Unproject(t, click);
    RoundHalfUpOfInteger(raw.x.Floor);
    RoundHalfUpOfInteger(raw.y.Floor);
    assert Placement(t, click, w, h, false).value == raw;
    ProjectUnproject(t, click);
  }

  /** A click in the middle of a 1000 x 500 image at the identity view is stored as 50%, 50%. */
  lemma PlacementCentreExample()
    ensures Placement(Identity, Point(500.0, 250.0), 1000.0, 500.0, true) == Some(Point(50.0, 50.0))
  {
    assert RoundHalfUp(5000.0) == 5000 by { RoundHalfUpOfInteger(5000); }
  }

  /** A click left of the image at a zoomed, shifted view places nothing. */
  lemma PlacementOutsideExample()
    ensures Placement(Transform(100.0, 50.0, 2.0), Point(90.0, 60.0), 400.0, 300.0, false) == None
  {
    assert Unproject(Transform(100.0, 50.0, 2.0), Point(90.0, 60.0)).x == -5.0;
  }
}
