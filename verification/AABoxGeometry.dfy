/** Splitting an axis-aligned box, and its intersection with a sphere, over exact coordinates. */
module AABoxGeometry {

  /** The coordinates of a point along the three axes. */
  type Point = s: seq<real> | |s| == 3 witness [0.0, 0.0, 0.0]

  datatype Box = Box(lo: Point, hi: Point)

  predicate Contains(b: Box, p: Point)
  {
    forall a :: 0 <= a < 3 ==> b.lo[a] <= p[a] <= b.hi[a]
  }

  /** What AABox::set assumes. */
  predicate Ordered(b: Box)
  {
    forall a :: 0 <= a < 3 ==> b.lo[a] <= b.hi[a]
  }

  function Min(x: real, y: real): real
  {
    if x < y then x else y
  }

  function Max(x: real, y: real): real
  {
    if x > y then x else y
  }

  function Square(x: real): real
  {
    x * x
  }

  function DistanceSquared(p: Point, q: Point): real
  {
    Square(p[0] - q[0]) + Square(p[1] - q[1]) + Square(p[2] - q[2])
  }

  method Split(b: Box, axis: int, location: real) returns (low: Box, high: Box)
    requires 0 <= axis < 3
    ensures forall p: Point :: Contains(b, p) ==> Contains(low, p) || Contains(high, p)
    ensures forall p: Point :: Contains(low, p) && Contains(high, p) ==> p[axis] == low.hi[axis] == high.lo[axis]
    ensures Ordered(b) && b.lo[axis] <= location <= b.hi[axis] ==>
      && Ordered(low) && Ordered(high)
      && forall p: Point :: (Contains(low, p) <==> Contains(b, p) && p[axis] <= location)
                         && (Contains(high, p) <==> Contains(b, p) && p[axis] >= location)
    ensures Ordered(b) ==>
      (b.lo[axis] <= location <= b.hi[axis] <==>
        forall p: Point :: Contains(low, p) || Contains(high, p) ==> Contains(b, p))
  {
    var l := Min(location, b.lo[axis]);
    var m := Min(Max(location, b.lo[axis]), b.hi[axis]);
    var h := Max(location, b.hi[axis]);
    low := Box(b.lo[axis := l], b.hi[axis := m]);
    high := Box(b.lo[axis := m], b.hi[axis := h]);
    if Ordered(b) && location < b.lo[axis] {
      assert Contains(low, low.lo) && !Contains(b, low.lo);
    }
    if Ordered(b) && location > b.hi[axis] {
      assert Contains(high, high.hi) && !Contains(b, high.hi);
    }
  }

  /** The point of a box closest to c. */
  function Closest(b: Box, c: Point): Point
  {
    [Max(b.lo[0], Min(c[0], b.hi[0])), Max(b.lo[1], Min(c[1], b.hi[1])), Max(b.lo[2], Min(c[2], b.hi[2]))]
  }

  lemma SquareOrder(x: real, y: real)
    requires 0.0 <= x <= y
    ensures Square(x) <= Square(y) && Square(x) == Square(-x) && Square(y) == Square(-y) && Square(0.0) == 0.0
  {
    assert x * (y - x) >= 0.0 && y * (y - x) >= 0.0;
  }

  lemma ClosestOnAxis(lo: real, hi: real, c: real, x: real)
    requires lo <= x <= hi
    ensures Square(c - Max(lo, Min(c, hi))) <= Square(c - x)
  {
    if c < lo {
      SquareOrder(lo - c, x - c);
    } else if c > hi {
      SquareOrder(c - hi, c - x);
    } else {
      SquareOrder(0.0, if c < x then x - c else c - x);
    }
  }

  /** What the loop adds for one axis. */
  function Excess(lo: real, hi: real, c: real): real
  {
    if c < lo then Square(c - lo) else if c > hi then Square(c - hi) else 0.0
  }

  lemma ClosestIsClosest(b: Box, c: Point, p: Point)
    requires Contains(b, p)
    ensures DistanceSquared(c, Closest(b, c)) <= DistanceSquared(c, p)
  {
    ClosestOnAxis(b.lo[0], b.hi[0], c[0], p[0]);
    ClosestOnAxis(b.lo[1], b.hi[1], c[1], p[1]);
    ClosestOnAxis(b.lo[2], b.hi[2], c[2], p[2]);
  }

  /** True exactly when some point of the box is within the radius of the center. */
  method IntersectsSphere(b: Box, center: Point, radius: real) returns (result: bool)
    requires Ordered(b)
    ensures result <==> exists p: Point :: Contains(b, p) && DistanceSquared(center, p) <= Square(radius)
  {
    var d := 0.0;
    for i := 0 to 3
      invariant i == 0 ==> d == 0.0
      invariant i == 1 ==> d == Excess(b.lo[0], b.hi[0], center[0])
      invariant i == 2 ==> d == Excess(b.lo[0], b.hi[0], center[0]) + Excess(b.lo[1], b.hi[1], center[1])
      invariant i == 3 ==> d == DistanceSquared(center, Closest(b, center))
    {
      if center[i] < b.lo[i] {
        d := d + Square(center[i] - b.lo[i]);
      } else if center[i] > b.hi[i] {
        d := d + Square(center[i] - b.hi[i]);
      }
    }
    result := d <= Square(radius);
    if result {
      assert Contains(b, Closest(b, center));
    } else {
      forall p: Point | Contains(b, p) ensures DistanceSquared(center, p) > Square(radius) {
        ClosestIsClosest(b, center, p);
      }
    }
  }
}
