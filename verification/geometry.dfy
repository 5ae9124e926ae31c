/** The plain records every entity is built from (positions, bounds, attributes). */
module Types {

  /** A position or displacement; y grows downwards, as on screen. */
  datatype Vector2 = Vector2(x: real, y: real)

  /** An axis-aligned box given by its four edges. */
  datatype Rect = Rect(left: real, right: real, top: real, bottom: real)

  datatype Circle = Circle(center: Vector2, radius: real)

  /** Attributes shared by the player and enemies; cooldowns are in seconds. */
  datatype Attribute = Attribute(health: int, score: int, speed: real, maxBulletCd: real, bulletCd: real)

  const Origin: Vector2 := Vector2(0.0, 0.0)

  /** A rect whose edges are in order; every rect built from a non-negative size is one. */
  predicate WellFormed(r: Rect) {
    r.left <= r.right && r.top <= r.bottom
  }
}

/**
 Vector arithmetic, clamping, shape constructors and the overlap tests used
 by the collision passes. Every test compares squared distances, so nothing
 here needs a square root.
 */
module Geometry {
  import opened Types

  function Dot(v1: Vector2, v2: Vector2): real {
    v1.x * v2.x + v1.y * v2.y
  }

  /** The dot product does not depend on argument order, and a vector's dot with itself is never negative. */
  lemma DotProperties(v1: Vector2, v2: Vector2)
    ensures Dot(v1, v2) == Dot(v2, v1)
    ensures Dot(v1, v1) >= 0.0
  {
    assert v1.x * v1.x >= 0.0 && v1.y * v1.y >= 0.0;
  }

  /** Limits `value` to `[lo, hi]`: the lower bound is checked first. */
  function Clamp(value: real, lo: real, hi: real): (r: real)
    ensures lo <= hi ==> lo <= r <= hi
    ensures lo <= value <= hi ==> r == value
    ensures value < lo ==> r == lo
    ensures lo <= value && hi < value ==> r == hi
  {
    if value < lo then lo
    else if value > hi then hi
    else value
  }

  function Lerp(a: real, b: real, t: real): real {
    a + (b - a) * t
  }

  /** Interpolation starts at `a`, ends at `b`, and stays between them for `t` in [0, 1]. */
  lemma LerpEndpoints(a: real, b: real, t: real)
    ensures Lerp(a, b, 0.0) == a
    ensures Lerp(a, b, 1.0) == b
    ensures 0.0 <= t <= 1.0 && a <= b ==> a <= Lerp(a, b, t) <= b
  {
    if 0.0 <= t <= 1.0 && a <= b {
      var d := b - a;
      assert 0.0 <= d * t;
      assert d * (1.0 - t) >= 0.0;
      assert d * t <= d;
    }
  }

  /**
   A random value in `[lo, hi]`. The pseudo-random draw `rand() / RAND_MAX`
   is the parameter `roll`, a number in `[0, 1]`.
   */
  function RandomDouble(lo: real, hi: real, roll: real): (r: real)
    ensures 0.0 <= roll <= 1.0 && lo <= hi ==> lo <= r <= hi
    ensures roll == 0.0 ==> r == lo
    ensures roll == 1.0 ==> r == hi
  {
    LerpEndpoints(lo, hi, roll);
    lo + roll * (hi - lo)
  }

  /** The rect whose top-left corner is `position`. */
  function CreateRect(position: Vector2, width: real, height: real): (r: Rect)
    ensures Vector2(r.left, r.top) == position
    ensures r.right - r.left == width && r.bottom - r.top == height
    ensures width >= 0.0 && height >= 0.0 ==> WellFormed(r)
  {
    Rect(position.x, position.x + width, position.y, position.y + height)
  }

  function CreateCircle(center: Vector2, radius: real): Circle {
    Circle(center, radius)
  }

  function Sq(v: real): real {
    v * v
  }

  /** Squared Euclidean distance between two points. */
  function DistSq(p: Vector2, q: Vector2): real {
    Sq(p.x - q.x) + Sq(p.y - q.y)
  }

  /** Axis-aligned overlap with closed intervals: boxes that only share an edge collide. */
  predicate IsRectRectCollision(r1: Rect, r2: Rect) {
    if r1.right < r2.left || r1.left > r2.right then false
    else if r1.bottom < r2.top || r1.top > r2.bottom then false
    else true
  }

  /** A circle meets a rect when the point of the rect closest to its centre lies within its radius. */
  predicate IsRectCircleCollision(rect: Rect, circle: Circle) {
    var closestX := Clamp(circle.center.x, rect.left, rect.right);
    var closestY := Clamp(circle.center.y, rect.top, rect.bottom);
    var dx := circle.center.x - closestX;
    var dy := circle.center.y - closestY;
    dx * dx + dy * dy <= circle.radius * circle.radius
  }

  predicate IsCircleCircleCollision(c1: Circle, c2: Circle) {
    var dx := c1.center.x - c2.center.x;
    var dy := c1.center.y - c2.center.y;
    var r := c1.radius + c2.radius;
    dx * dx + dy * dy <= r * r
  }

  /** Closed on all four edges. */
  predicate IsPointInRect(p: Vector2, r: Rect) {
    p.x >= r.left && p.x <= r.right && p.y >= r.top && p.y <= r.bottom
  }

  predicate IsPointInCircle(p: Vector2, c: Circle) {
    var dx := p.x - c.center.x;
    var dy := p.y - c.center.y;
    dx * dx + dy * dy <= c.radius * c.radius
  }

  /** Rect overlap is symmetric. */
  lemma RectRectSymmetric(r1: Rect, r2: Rect)
    ensures IsRectRectCollision(r1, r2) == IsRectRectCollision(r2, r1)
  {
  }

  /**
   For well-formed rects the edge test is exactly "the two boxes share a point";
   the shared point is the larger of the two top-left corners.
   */
  lemma RectRectIffCommonPoint(r1: Rect, r2: Rect)
    requires WellFormed(r1) && WellFormed(r2)
    ensures IsRectRectCollision(r1, r2) <==> exists p :: IsPointInRect(p, r1) && IsPointInRect(p, r2)
  {
    if IsRectRectCollision(r1, r2) {
      var p := Vector2(if r1.left < r2.left then r2.left else r1.left,
                       if r1.top < r2.top then r2.top else r1.top);
      assert IsPointInRect(p, r1) && IsPointInRect(p, r2);
    }
  }

  /**
   The intervals are closed: boxes that only touch along an edge collide,
   and any positive gap on either axis separates them.
   */
  lemma RectRectEdges(r1: Rect, r2: Rect)
    requires WellFormed(r1) && WellFormed(r2)
    ensures r1.top <= r2.bottom && r2.top <= r1.bottom && r1.right == r2.left ==> IsRectRectCollision(r1, r2)
    ensures r1.left <= r2.right && r2.left <= r1.right && r1.bottom == r2.top ==> IsRectRectCollision(r1, r2)
    ensures r1.right < r2.left || r2.right < r1.left ==> !IsRectRectCollision(r1, r2)
    ensures r1.bottom < r2.top || r2.bottom < r1.top ==> !IsRectRectCollision(r1, r2)
  {
  }

  /** A point is in a rect exactly when the zero-size rect at that point collides with it. */
  lemma PointInRectIsDegenerateRect(p: Vector2, r: Rect)
    ensures IsPointInRect(p, r) <==> IsRectRectCollision(Rect(p.x, p.x, p.y, p.y), r)
  {
  }

  /** All four corners of a well-formed rect are inside it. */
  lemma CornersInRect(r: Rect)
    requires WellFormed(r)
    ensures IsPointInRect(Vector2(r.left, r.top), r) && IsPointInRect(Vector2(r.right, r.top), r)
    ensures IsPointInRect(Vector2(r.left, r.bottom), r) && IsPointInRect(Vector2(r.right, r.bottom), r)
  {
  }

  /** A circle whose centre lies in the rect collides with it, whatever its radius. */
  lemma CenterInRectCollides(rect: Rect, circle: Circle)
    requires IsPointInRect(circle.center, rect)
    ensures IsRectCircleCollision(rect, circle)
  {
    assert circle.radius * circle.radius >= 0.0;
  }

  /** On one axis the clamped coordinate is at least as close to `c` as any coordinate in `[lo, hi]`. */
  lemma ClampIsClosest(c: real, lo: real, hi: real, q: real)
    requires lo <= q <= hi
    ensures Sq(c - Clamp(c, lo, hi)) <= Sq(c - q)
  {
    var k := Clamp(c, lo, hi);
    if c < lo {
      assert 0.0 < k - c <= q - c;
      assert (k - c) * (k - c) <= (q - c) * (k - c) <= (q - c) * (q - c);
    } else if c > hi {
      assert 0.0 < c - k <= c - q;
      assert (c - k) * (c - k) <= (c - q) * (c - k) <= (c - q) * (c - q);
    } else {
      assert Sq(c - k) == 0.0;
      assert (c - q) * (c - q) >= 0.0;
    }
  }

  /**
   The closest-point test is exactly "some point of the rect lies within the
   radius of the centre": the clamped point is that point when one exists.
   */
  lemma RectCircleIffNearPoint(rect: Rect, circle: Circle)
    requires WellFormed(rect)
    ensures IsRectCircleCollision(rect, circle)
        <==> exists q :: IsPointInRect(q, rect) && DistSq(circle.center, q) <= Sq(circle.radius)
  {
    var c := circle.center;
    var k := Vector2(Clamp(c.x, rect.left, rect.right), Clamp(c.y, rect.top, rect.bottom));
    assert IsPointInRect(k, rect);
    assert IsRectCircleCollision(rect, circle) <==> DistSq(c, k) <= Sq(circle.radius);
    forall q | IsPointInRect(q, rect)
      ensures DistSq(c, k) <= DistSq(c, q)
    {
      ClampIsClosest(c.x, rect.left, rect.right, q.x);
      ClampIsClosest(c.y, rect.top, rect.bottom, q.y);
    }
  }

  /** Circle overlap is symmetric. */
  lemma CircleCircleSymmetric(c1: Circle, c2: Circle)
    ensures IsCircleCircleCollision(c1, c2) == IsCircleCircleCollision(c2, c1)
  {
    var dx := c1.center.x - c2.center.x;
    var dy := c1.center.y - c2.center.y;
    assert dx * dx == (-dx) * (-dx) && dy * dy == (-dy) * (-dy);
  }

  /** A point is in a circle exactly when a zero-radius circle there collides with it. */
  lemma PointInCircleIsZeroRadius(p: Vector2, c: Circle)
    ensures IsPointInCircle(p, c) == IsCircleCircleCollision(CreateCircle(p, 0.0), c)
  {
  }
}
