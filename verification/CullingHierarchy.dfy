/** Culling with inherited masks gives every descendant the verdict of culling with the original
    mask, however deep the hierarchy. */
module CullingHierarchy {
  import opened Bits
  import opened Culling

  /** A box in a half space, or outside one, has all its descendants there. */
  ghost predicate Inherits(parent: seq<Side>, child: seq<Side>)
  {
    && |parent| == |child|
    && forall p :: 0 <= p < |parent| ==>
         (parent[p] == In ==> child[p] == In) && (parent[p] == Out ==> child[p] == Out)
  }

  /** The masks a descent can give rise to: mask i + 1 is the child mask of box i under mask i. */
  ghost predicate IsDescent(sides: seq<seq<Side>>, masks: seq<nat>)
  {
    && |masks| == |sides| > 0
    && (forall i :: 0 <= i < |sides| - 1 ==> Inherits(sides[i], sides[i + 1]))
    && (forall i :: 0 <= i < |sides| - 1 ==> PassesDown(sides[i], masks[i], masks[i + 1]))
  }

  ghost predicate PassesDown(sides: seq<Side>, mask: nat, childMask: nat)
  {
    exists culled, cullingPlane ::
      IsVerdict(sides, mask, culled, cullingPlane) && IsChildMask(sides, mask, culled, cullingPlane, childMask)
  }

  /** What a mask still knows about the planes of the original one: nothing relevant was dropped,
      or a plane that culls was kept. */
  ghost predicate Faithful(original: nat, sides: seq<Side>, mask: nat)
  {
    && (forall p: nat :: p < |sides| && Bit(mask, p) ==> Bit(original, p))
    && (Culled(sides, mask) || forall p: nat :: p < |sides| && Bit(original, p) ==> Bit(mask, p) || sides[p] == In)
  }

  lemma FaithfulVerdict(original: nat, sides: seq<Side>, mask: nat)
    requires Faithful(original, sides, mask)
    ensures Culled(sides, mask) <==> Culled(sides, original)
  {
    if p :| Culls(sides, mask, p) { assert Culls(sides, original, p); }
    if p :| Culls(sides, original, p) {
      if Bit(mask, p) { assert Culls(sides, mask, p); }
    }
  }

  lemma FaithfulChild(original: nat, sides: seq<Side>, mask: nat, child: seq<Side>, childMask: nat)
    requires Faithful(original, sides, mask) && Inherits(sides, child) && PassesDown(sides, mask, childMask)
    ensures Faithful(original, child, childMask)
  {
    var culled, cullingPlane :|
      IsVerdict(sides, mask, culled, cullingPlane) && IsChildMask(sides, mask, culled, cullingPlane, childMask);
    if culled {
      assert Culls(sides, mask, cullingPlane);
      assert Culls(child, childMask, cullingPlane);
    } else {
      forall p: nat | p < |child| && Bit(original, p) ensures Bit(childMask, p) || child[p] == In {
        assert !Culls(sides, mask, p);
      }
    }
  }

  lemma {:induction false} FaithfulAt(sides: seq<seq<Side>>, masks: seq<nat>, i: nat)
    requires IsDescent(sides, masks) && i < |sides|
    ensures Faithful(masks[0], sides[i], masks[i])
  {
    if i > 0 {
      FaithfulAt(sides, masks, i - 1);
      assert Inherits(sides[i - 1], sides[i - 1 + 1]) && PassesDown(sides[i - 1], masks[i - 1], masks[i - 1 + 1]);
      FaithfulChild(masks[0], sides[i - 1], masks[i - 1], sides[i], masks[i]);
    }
  }

  /** The theorem: at every depth the inherited mask gives the verdict of the original one. */
  lemma MasksExact(sides: seq<seq<Side>>, masks: seq<nat>)
    requires IsDescent(sides, masks)
    ensures forall i :: 0 <= i < |sides| ==> (Culled(sides[i], masks[i]) <==> Culled(sides[i], masks[0]))
  {
    forall i | 0 <= i < |sides| ensures Culled(sides[i], masks[i]) <==> Culled(sides[i], masks[0]) {
      FaithfulAt(sides, masks, i);
      FaithfulVerdict(masks[0], sides[i], masks[i]);
    }
  }

  // Nested boxes inherit.

  ghost predicate Inside(child: AABox, parent: AABox)
  {
    && AreFloats(child) && AreFloats(parent)
    && AtMost(parent.lo.x, child.lo.x) && AtMost(child.lo.x, child.hi.x) && AtMost(child.hi.x, parent.hi.x)
    && AtMost(parent.lo.y, child.lo.y) && AtMost(child.lo.y, child.hi.y) && AtMost(child.hi.y, parent.hi.y)
    && AtMost(parent.lo.z, child.lo.z) && AtMost(child.lo.z, child.hi.z) && AtMost(child.hi.z, parent.hi.z)
  }

  lemma ClampMonotone(c: Coord, d: Coord)
    requires AtMost(c, d)
    ensures Clamp(c) <= Clamp(d)
  {
  }

  /** The end of an interval where the multiples by n are greatest, or least. */
  function End(n: real, lo: real, hi: real, greatest: bool): real
  {
    if (n >= 0.0) == greatest then hi else lo
  }

  lemma ProductOrder(n: real, x: real, y: real)
    requires x <= y
    ensures if n >= 0.0 then n * x <= n * y else n * x >= n * y
  {
    if n >= 0.0 { assert n * (y - x) >= 0.0; } else { assert n * (y - x) <= 0.0; }
  }

  lemma EndOrder(n: real, lo: real, x: real, hi: real)
    requires lo <= x <= hi
    ensures n * End(n, lo, hi, false) <= n * x <= n * End(n, lo, hi, true)
  {
    ProductOrder(n, lo, x);
    ProductOrder(n, x, hi);
  }

  lemma DotOrder(p: Plane, x: real, y: real, z: real, x': real, y': real, z': real)
    requires p.nx * x <= p.nx * x' && p.ny * y <= p.ny * y' && p.nz * z <= p.nz * z'
    ensures Dot(p, x, y, z) <= Dot(p, x', y', z')
  {
  }

  lemma DotBetween(p: Plane, lx: real, ly: real, lz: real, x: real, y: real, z: real, hx: real, hy: real, hz: real)
    requires lx <= x <= hx && ly <= y <= hy && lz <= z <= hz
    ensures Dot(p, End(p.nx, lx, hx, false), End(p.ny, ly, hy, false), End(p.nz, lz, hz, false)) <= Dot(p, x, y, z)
    ensures Dot(p, x, y, z) <= Dot(p, End(p.nx, lx, hx, true), End(p.ny, ly, hy, true), End(p.nz, lz, hz, true))
  {
    EndOrder(p.nx, lx, x, hx);
    EndOrder(p.ny, ly, y, hy);
    EndOrder(p.nz, lz, z, hz);
    DotOrder(p, End(p.nx, lx, hx, false), End(p.ny, ly, hy, false), End(p.nz, lz, hz, false), x, y, z);
    DotOrder(p, x, y, z, End(p.nx, lx, hx, true), End(p.ny, ly, hy, true), End(p.nz, lz, hz, true));
  }

  /** The corner of a box farthest along a plane's normal, or farthest against it. */
  function Extreme(p: Plane, along: bool): nat
  {
    (if (p.nx >= 0.0) == along then 1 else 0) + (if (p.ny >= 0.0) == along then 2 else 0)
    + (if (p.nz >= 0.0) == along then 4 else 0)
  }

  lemma ExtremeCorner(p: Plane, box: AABox, along: bool)
    ensures Extreme(p, along) < 8
    ensures Corner(box, Extreme(p, along)) ==
      Vector3(if (p.nx >= 0.0) == along then box.hi.x else box.lo.x,
              if (p.ny >= 0.0) == along then box.hi.y else box.lo.y,
              if (p.nz >= 0.0) == along then box.hi.z else box.lo.z)
  {
    var v := Extreme(p, along);
    assert Bit(v, 0) == (v % 2 == 1) && Bit(v, 1) == (v / 2 % 2 == 1) && Bit(v, 2) == (v / 2 / 2 % 2 == 1);
  }

  ghost function Height(p: Plane, v: Vector3): real
  {
    Dot(p, Clamp(v.x), Clamp(v.y), Clamp(v.z))
  }

  lemma CoordinatesInside(child: AABox, parent: AABox, v: nat)
    requires Inside(child, parent)
    ensures var c := Corner(child, v);
      && Clamp(parent.lo.x) <= Clamp(c.x) <= Clamp(parent.hi.x)
      && Clamp(parent.lo.y) <= Clamp(c.y) <= Clamp(parent.hi.y)
      && Clamp(parent.lo.z) <= Clamp(c.z) <= Clamp(parent.hi.z)
  {
    var c := Corner(child, v);
    ClampMonotone(parent.lo.x, c.x); ClampMonotone(c.x, parent.hi.x);
    ClampMonotone(parent.lo.y, c.y); ClampMonotone(c.y, parent.hi.y);
    ClampMonotone(parent.lo.z, c.z); ClampMonotone(c.z, parent.hi.z);
  }

  lemma ExtremeHeight(p: Plane, box: AABox, along: bool)
    ensures Extreme(p, along) < 8
    ensures Height(p, Corner(box, Extreme(p, along))) ==
      Dot(p, End(p.nx, Clamp(box.lo.x), Clamp(box.hi.x), along), End(p.ny, Clamp(box.lo.y), Clamp(box.hi.y), along),
          End(p.nz, Clamp(box.lo.z), Clamp(box.hi.z), along))
  {
    ExtremeCorner(p, box, along);
  }

  lemma BetweenExtremes(p: Plane, child: AABox, parent: AABox, v: nat)
    requires Inside(child, parent) && v < 8
    ensures Height(p, Corner(parent, Extreme(p, false))) <= Height(p, Corner(child, v))
    ensures Height(p, Corner(child, v)) <= Height(p, Corner(parent, Extreme(p, true)))
  {
    ExtremeHeight(p, parent, false);
    ExtremeHeight(p, parent, true);
    CoordinatesInside(child, parent, v);
    var l, c, h := parent.lo, Corner(child, v), parent.hi;
    DotBetween(p, Clamp(l.x), Clamp(l.y), Clamp(l.z), Clamp(c.x), Clamp(c.y), Clamp(c.z), Clamp(h.x), Clamp(h.y), Clamp(h.z));
  }

  lemma AABoxSideInherited(p: Plane, child: AABox, parent: AABox)
    requires Inside(child, parent)
    ensures SideOf(p, Corners(parent)) == In ==> SideOf(p, Corners(child)) == In
    ensures SideOf(p, Corners(parent)) == Out ==> SideOf(p, Corners(child)) == Out
  {
    ExtremeCorner(p, parent, false);
    ExtremeCorner(p, parent, true);
    assert Corners(parent)[Extreme(p, false)] == Corner(parent, Extreme(p, false));
    assert Corners(parent)[Extreme(p, true)] == Corner(parent, Extreme(p, true));
    forall v | 0 <= v < 8
      ensures SideOf(p, Corners(parent)) == In ==> HalfSpaceContains(p, Corners(child)[v])
      ensures SideOf(p, Corners(parent)) == Out ==> !HalfSpaceContains(p, Corners(child)[v])
    {
      BetweenExtremes(p, child, parent, v);
    }
    assert HalfSpaceContains(p, Corners(child)[0]) || !HalfSpaceContains(p, Corners(child)[0]);
  }

  // An oriented box lies inside another if its corners are convex combinations of the other's, all of
  // them where the plane tests take them to be: infinite coordinates are clamped.

  function Weighted(w: seq<real>, h: seq<real>): real
    requires |w| == |h|
  {
    if w == [] then 0.0 else w[0] * h[0] + Weighted(w[1..], h[1..])
  }

  function Total(w: seq<real>): real
  {
    if w == [] then 0.0 else w[0] + Total(w[1..])
  }

  ghost predicate Combines(w: seq<real>, corners: seq<Vector3>, x: real, y: real, z: real)
    requires |w| == |corners|
  {
    && (forall i :: 0 <= i < |w| ==> w[i] >= 0.0) && Total(w) == 1.0
    && x == Weighted(w, Xs(corners)) && y == Weighted(w, Ys(corners)) && z == Weighted(w, Zs(corners))
  }

  function Xs(s: seq<Vector3>): (r: seq<real>)
    ensures |r| == |s|
  {
    seq(|s|, i requires 0 <= i < |s| => Clamp(s[i].x))
  }

  function Ys(s: seq<Vector3>): (r: seq<real>)
    ensures |r| == |s|
  {
    seq(|s|, i requires 0 <= i < |s| => Clamp(s[i].y))
  }

  function Zs(s: seq<Vector3>): (r: seq<real>)
    ensures |r| == |s|
  {
    seq(|s|, i requires 0 <= i < |s| => Clamp(s[i].z))
  }

  ghost function Heights(p: Plane, s: seq<Vector3>): (r: seq<real>)
    ensures |r| == |s|
  {
    seq(|s|, i requires 0 <= i < |s| => Height(p, s[i]))
  }

  /** The points that eight corners span. */
  ghost predicate HullHas(corners: seq<Vector3>, x: real, y: real, z: real)
    requires |corners| == 8
  {
    exists w: seq<real> :: |w| == 8 && Combines(w, corners, x, y, z)
  }

  ghost predicate BoxInside(child: Box, parent: Box)
  {
    && |child.corner| == |parent.corner| == 8
    && forall v :: 0 <= v < 8 ==> HullHas(parent.corner, Clamp(child.corner[v].x), Clamp(child.corner[v].y), Clamp(child.corner[v].z))
  }

  /** The dot product of a combination is the combination of the dot products. */
  lemma {:induction false} WeightedLinear(p: Plane, w: seq<real>, x: seq<real>, y: seq<real>, z: seq<real>, h: seq<real>)
    requires |w| == |x| == |y| == |z| == |h|
    requires forall i :: 0 <= i < |h| ==> h[i] == Dot(p, x[i], y[i], z[i])
    ensures Weighted(w, h) == Dot(p, Weighted(w, x), Weighted(w, y), Weighted(w, z))
    decreases |w|
  {
    if w != [] {
      WeightedLinear(p, w[1..], x[1..], y[1..], z[1..], h[1..]);
      assert h[0] == Dot(p, x[0], y[0], z[0]);
      var a, b, c := Weighted(w[1..], x[1..]), Weighted(w[1..], y[1..]), Weighted(w[1..], z[1..]);
      var rest := Weighted(w[1..], h[1..]);
      assert rest == Dot(p, a, b, c);
      Distribute(p, w[0], x[0], y[0], z[0], h[0], a, b, c, rest);
    }
  }

  lemma Distribute(p: Plane, w: real, x: real, y: real, z: real, h: real, a: real, b: real, c: real, rest: real)
    requires h == Dot(p, x, y, z) && rest == Dot(p, a, b, c)
    ensures w * h + rest == Dot(p, w * x + a, w * y + b, w * z + c)
  {
  }

  lemma {:induction false} WeightedAbove(w: seq<real>, h: seq<real>, d: real)
    requires |w| == |h| && forall i :: 0 <= i < |w| ==> w[i] >= 0.0 && h[i] >= d
    ensures Weighted(w, h) >= d * Total(w)
    decreases |w|
  {
    if w != [] {
      WeightedAbove(w[1..], h[1..], d);
      assert w[0] * (h[0] - d) >= 0.0;
    }
  }

  lemma {:induction false} WeightedBelow(w: seq<real>, h: seq<real>, d: real)
    requires |w| == |h| && forall i :: 0 <= i < |w| ==> w[i] >= 0.0 && h[i] < d
    ensures Total(w) >= 0.0
    ensures if Total(w) == 0.0 then Weighted(w, h) == 0.0 else Weighted(w, h) < d * Total(w)
    decreases |w|
  {
    if w != [] {
      WeightedBelow(w[1..], h[1..], d);
      BelowStep(w[0], h[0], d, Total(w[1..]), Weighted(w[1..], h[1..]));
    }
  }

  lemma BelowStep(w: real, h: real, d: real, t: real, s: real)
    requires w >= 0.0 && h < d && t >= 0.0 && if t == 0.0 then s == 0.0 else s < d * t
    ensures if w + t == 0.0 then w * h + s == 0.0 else w * h + s < d * (w + t)
  {
    assert d * (w + t) == d * w + d * t;
    if w > 0.0 {
      assert w * (d - h) > 0.0;
    } else {
      assert w * h == 0.0 && d * w == 0.0;
    }
  }

  lemma BoxHeight(p: Plane, w: seq<real>, corners: seq<Vector3>, x: real, y: real, z: real)
    requires |w| == |corners| && Combines(w, corners, x, y, z)
    ensures Dot(p, x, y, z) == Weighted(w, Heights(p, corners))
  {
    WeightedLinear(p, w, Xs(corners), Ys(corners), Zs(corners), Heights(p, corners));
  }

  /** A point that the corners span lies where they all do. */
  lemma HullSide(p: Plane, corners: seq<Vector3>, x: real, y: real, z: real)
    requires |corners| == 8 && HullHas(corners, x, y, z)
    ensures SideOf(p, corners) == In ==> Dot(p, x, y, z) >= p.distance
    ensures SideOf(p, corners) == Out ==> Dot(p, x, y, z) < p.distance
  {
    var hs := Heights(p, corners);
    var w: seq<real> :| |w| == 8 && Combines(w, corners, x, y, z);
    BoxHeight(p, w, corners, x, y, z);
    assert forall i :: 0 <= i < 8 ==> (hs[i] >= p.distance <==> HalfSpaceContains(p, corners[i]));
    if SideOf(p, corners) == In { WeightedAbove(w, hs, p.distance); }
    if SideOf(p, corners) == Out { WeightedBelow(w, hs, p.distance); }
  }

  lemma BoxSideInherited(p: Plane, child: Box, parent: Box)
    requires BoxInside(child, parent)
    ensures SideOf(p, parent.corner) == In ==> SideOf(p, child.corner) == In
    ensures SideOf(p, parent.corner) == Out ==> SideOf(p, child.corner) == Out
  {
    forall v | 0 <= v < 8
      ensures SideOf(p, parent.corner) == In ==> HalfSpaceContains(p, child.corner[v])
      ensures SideOf(p, parent.corner) == Out ==> !HalfSpaceContains(p, child.corner[v])
    {
      var c := child.corner[v];
      HullSide(p, parent.corner, Clamp(c.x), Clamp(c.y), Clamp(c.z));
    }
    assert HalfSpaceContains(p, child.corner[0]) || !HalfSpaceContains(p, child.corner[0]);
  }

  /** Down any chain of nested axis-aligned boxes, culling with the masks handed down gives the
      verdicts of culling with the original mask. */
  lemma AABoxDescentExact(planes: seq<Plane>, boxes: seq<AABox>, masks: seq<nat>)
    requires |masks| == |boxes| > 0
    requires forall i :: 0 <= i < |boxes| - 1 ==> Inside(boxes[i + 1], boxes[i])
    requires forall i :: 0 <= i < |boxes| - 1 ==> PassesDown(Sides(planes, Corners(boxes[i])), masks[i], masks[i + 1])
    ensures forall i :: 0 <= i < |boxes| ==>
      (Culled(Sides(planes, Corners(boxes[i])), masks[i]) <==> Culled(Sides(planes, Corners(boxes[i])), masks[0]))
  {
    var sides := seq(|boxes|, i requires 0 <= i < |boxes| => Sides(planes, Corners(boxes[i])));
    forall i | 0 <= i < |sides| - 1 ensures Inherits(sides[i], sides[i + 1]) {
      forall p | 0 <= p < |planes|
        ensures (sides[i][p] == In ==> sides[i + 1][p] == In) && (sides[i][p] == Out ==> sides[i + 1][p] == Out)
      {
        AABoxSideInherited(planes[p], boxes[i + 1], boxes[i]);
      }
    }
    MasksExact(sides, masks);
  }

  /** The same for oriented boxes. */
  lemma BoxDescentExact(planes: seq<Plane>, boxes: seq<Box>, masks: seq<nat>)
    requires |masks| == |boxes| > 0
    requires forall i :: 0 <= i < |boxes| - 1 ==> BoxInside(boxes[i + 1], boxes[i])
    requires forall i :: 0 <= i < |boxes| - 1 ==> PassesDown(Sides(planes, boxes[i].corner), masks[i], masks[i + 1])
    ensures forall i :: 0 <= i < |boxes| ==>
      (Culled(Sides(planes, boxes[i].corner), masks[i]) <==> Culled(Sides(planes, boxes[i].corner), masks[0]))
  {
    var sides := seq(|boxes|, i requires 0 <= i < |boxes| => Sides(planes, boxes[i].corner));
    forall i | 0 <= i < |sides| - 1 ensures Inherits(sides[i], sides[i + 1]) {
      forall p | 0 <= p < |planes|
        ensures (sides[i][p] == In ==> sides[i + 1][p] == In) && (sides[i][p] == Out ==> sides[i + 1][p] == Out)
      {
        BoxSideInherited(planes[p], boxes[i + 1], boxes[i]);
      }
    }
    MasksExact(sides, masks);
  }

  /** A child mask names only tested planes. */
  lemma ChildMaskSubset(sides: seq<Side>, mask: nat, childMask: nat, p: nat)
    requires PassesDown(sides, mask, childMask) && Bit(childMask, p)
    ensures p < |sides| && Bit(mask, p)
  {
    var culled, cullingPlane :|
      IsVerdict(sides, mask, culled, cullingPlane) && IsChildMask(sides, mask, culled, cullingPlane, childMask);
  }
}
