/** What the sides of a plane, and with them the verdicts of culling, say about the points of a box. */
module CullingGeometry {
  import opened Bits
  import opened Culling
  import opened CullingHierarchy

  // Axis-aligned boxes.

  /** A point of a box, of which infinite coordinates are clamped as the plane tests do. */
  predicate PointIn(box: AABox, x: real, y: real, z: real)
  {
    && Clamp(box.lo.x) <= x <= Clamp(box.hi.x)
    && Clamp(box.lo.y) <= y <= Clamp(box.hi.y)
    && Clamp(box.lo.z) <= z <= Clamp(box.hi.z)
  }

  /** In a finite box those are the points between its corners. */
  lemma PointsOfFinite(box: AABox, x: real, y: real, z: real)
    requires AreFloats(box) && BoxIsFinite(box)
    ensures PointIn(box, x, y, z)
            <==> box.lo.x.r <= x <= box.hi.x.r && box.lo.y.r <= y <= box.hi.y.r && box.lo.z.r <= z <= box.hi.z.r
  {
  }

  predicate Ordered(box: AABox)
  {
    AtMost(box.lo.x, box.hi.x) && AtMost(box.lo.y, box.hi.y) && AtMost(box.lo.z, box.hi.z)
  }

  lemma DotIs(p: Plane, x: real, y: real, z: real)
    ensures Dot(p, x, y, z) == p.nx * x + p.ny * y + p.nz * z
  {
  }

  lemma TestIs(p: Plane, v: Vector3, x: real, y: real, z: real)
    requires Clamp(v.x) == x && Clamp(v.y) == y && Clamp(v.z) == z
    ensures HalfSpaceContains(p, v) <==> Dot(p, x, y, z) >= p.distance
  {
  }

  lemma ExtremeSides(p: Plane, box: AABox, low: real, high: real)
    requires low == Height(p, Corner(box, Extreme(p, false))) && high == Height(p, Corner(box, Extreme(p, true)))
    ensures SideOf(p, Corners(box)) == Out ==> high < p.distance
    ensures SideOf(p, Corners(box)) == In ==> low >= p.distance
  {
    ExtremeCorner(p, box, false);
    ExtremeCorner(p, box, true);
    var l, h := Extreme(p, false), Extreme(p, true);
    assert Corners(box)[l] == Corner(box, l) && Corners(box)[h] == Corner(box, h);
    assert HalfSpaceContains(p, Corner(box, l)) <==> low >= p.distance;
    assert HalfSpaceContains(p, Corner(box, h)) <==> high >= p.distance;
  }

  lemma BetweenHeights(p: Plane, box: AABox, x: real, y: real, z: real)
    requires PointIn(box, x, y, z)
    ensures Height(p, Corner(box, Extreme(p, false))) <= Dot(p, x, y, z) <= Height(p, Corner(box, Extreme(p, true)))
  {
    ExtremeHeight(p, box, false);
    ExtremeHeight(p, box, true);
    DotBetween(p, Clamp(box.lo.x), Clamp(box.lo.y), Clamp(box.lo.z), x, y, z, Clamp(box.hi.x), Clamp(box.hi.y), Clamp(box.hi.z));
  }

  lemma PointOnSide(p: Plane, box: AABox, x: real, y: real, z: real)
    requires PointIn(box, x, y, z)
    ensures SideOf(p, Corners(box)) == Out ==> Dot(p, x, y, z) < p.distance
    ensures SideOf(p, Corners(box)) == In ==> Dot(p, x, y, z) >= p.distance
  {
    BetweenHeights(p, box, x, y, z);
    ExtremeSides(p, box, Height(p, Corner(box, Extreme(p, false))), Height(p, Corner(box, Extreme(p, true))));
  }

  lemma CornerIn(box: AABox, v: nat)
    requires Ordered(box) && v < 8
    ensures var c := Corner(box, v); PointIn(box, Clamp(c.x), Clamp(c.y), Clamp(c.z))
  {
    ClampMonotone(box.lo.x, box.hi.x);
    ClampMonotone(box.lo.y, box.hi.y);
    ClampMonotone(box.lo.z, box.hi.z);
  }

  lemma CornerPoint(p: Plane, box: AABox, v: nat) returns (x: real, y: real, z: real)
    requires Ordered(box) && v < 8
    ensures PointIn(box, x, y, z) && (HalfSpaceContains(p, Corners(box)[v]) <==> Dot(p, x, y, z) >= p.distance)
  {
    var c := Corner(box, v);
    x, y, z := Clamp(c.x), Clamp(c.y), Clamp(c.z);
    CornerIn(box, v);
    TestIs(p, c, x, y, z);
  }

  type Points = (real, real, real) -> bool

  ghost function PointsOf(box: AABox): Points
  {
    (x, y, z) => PointIn(box, x, y, z)
  }

  /** All of these points are behind the plane. */
  ghost predicate AllBehind(p: Plane, points: Points)
  {
    forall x, y, z :: points(x, y, z) ==> p.nx * x + p.ny * y + p.nz * z < p.distance
  }

  /** None of them is. */
  ghost predicate NoneBehind(p: Plane, points: Points)
  {
    forall x, y, z :: points(x, y, z) ==> p.nx * x + p.ny * y + p.nz * z >= p.distance
  }

  // The same by dot products.

  ghost predicate AllBelow(p: Plane, points: Points)
  {
    forall x, y, z :: points(x, y, z) ==> Dot(p, x, y, z) < p.distance
  }

  ghost predicate NoneBelow(p: Plane, points: Points)
  {
    forall x, y, z :: points(x, y, z) ==> Dot(p, x, y, z) >= p.distance
  }

  lemma WrittenOut(p: Plane, points: Points)
    ensures AllBelow(p, points) <==> AllBehind(p, points)
    ensures NoneBelow(p, points) <==> NoneBehind(p, points)
  {
    forall x, y, z ensures Dot(p, x, y, z) == p.nx * x + p.ny * y + p.nz * z { DotIs(p, x, y, z); }
  }

  lemma AABoxOutside(p: Plane, box: AABox)
    requires Ordered(box)
    ensures SideOf(p, Corners(box)) == Out <==> AllBelow(p, PointsOf(box))
  {
    if SideOf(p, Corners(box)) == Out {
      forall x, y, z | PointsOf(box)(x, y, z)
        ensures Dot(p, x, y, z) < p.distance
      {
        PointOnSide(p, box, x, y, z);
      }
    } else {
      var v :| 0 <= v < 8 && HalfSpaceContains(p, Corners(box)[v]);
      var x, y, z := CornerPoint(p, box, v);
      assert PointsOf(box)(x, y, z);
    }
  }

  lemma AABoxInside(p: Plane, box: AABox)
    requires Ordered(box)
    ensures SideOf(p, Corners(box)) == In <==> NoneBelow(p, PointsOf(box))
  {
    NotAllIn(p, Corners(box));
    if SideOf(p, Corners(box)) == In {
      forall x, y, z | PointsOf(box)(x, y, z)
        ensures Dot(p, x, y, z) >= p.distance
      {
        PointOnSide(p, box, x, y, z);
      }
    } else {
      var v :| 0 <= v < 8 && !HalfSpaceContains(p, Corners(box)[v]);
      var x, y, z := CornerPoint(p, box, v);
      assert PointsOf(box)(x, y, z);
    }
  }

  /** Out if and only if every point of the box is behind the plane. */
  lemma AABoxOut(p: Plane, box: AABox)
    requires Ordered(box)
    ensures SideOf(p, Corners(box)) == Out <==> AllBehind(p, PointsOf(box))
  {
    AABoxOutside(p, box);
    WrittenOut(p, PointsOf(box));
  }

  /** In if and only if none is. */
  lemma AABoxIn(p: Plane, box: AABox)
    requires Ordered(box)
    ensures SideOf(p, Corners(box)) == In <==> NoneBehind(p, PointsOf(box))
  {
    AABoxInside(p, box);
    WrittenOut(p, PointsOf(box));
  }

  lemma NotAllIn(p: Plane, corners: seq<Vector3>)
    requires |corners| == 8
    ensures SideOf(p, corners) == In <==> forall v :: 0 <= v < 8 ==> HalfSpaceContains(p, corners[v])
  {
    assert HalfSpaceContains(p, corners[0]) || !HalfSpaceContains(p, corners[0]);
  }

  /** A box is culled if and only if all of it is behind a tested plane, and by the first of these; children
      are to be tested against that plane, or against the tested planes with points of the box on both sides. */
  lemma AABoxVerdict(planes: seq<Plane>, box: AABox, mask: nat, culled: bool, cullingPlane: int)
    requires Ordered(box) && IsVerdict(Sides(planes, Corners(box)), mask, culled, cullingPlane)
    ensures culled <==> exists p :: 0 <= p < |planes| && Bit(mask, p) && AllBehind(planes[p], PointsOf(box))
    ensures culled ==> 0 <= cullingPlane < |planes| && Bit(mask, cullingPlane) && AllBehind(planes[cullingPlane], PointsOf(box))
    ensures culled ==> forall p :: 0 <= p < cullingPlane && Bit(mask, p) ==> !AllBehind(planes[p], PointsOf(box))
    ensures forall childMask, p: nat :: IsChildMask(Sides(planes, Corners(box)), mask, culled, cullingPlane, childMask) ==>
      (Bit(childMask, p) <==>
        if culled then p == cullingPlane
        else p < |planes| && Bit(mask, p) && !AllBehind(planes[p], PointsOf(box)) && !NoneBehind(planes[p], PointsOf(box)))
  {
    var sides := Sides(planes, Corners(box));
    forall p | 0 <= p < |planes|
      ensures sides[p] == Out <==> AllBehind(planes[p], PointsOf(box))
      ensures sides[p] == In <==> NoneBehind(planes[p], PointsOf(box))
      ensures Culls(sides, mask, p) <==> Bit(mask, p) && AllBehind(planes[p], PointsOf(box))
    {
      AABoxOut(planes[p], box);
      AABoxIn(planes[p], box);
    }
  }

  // Oriented boxes.

  function Unit(n: nat, v: nat): (w: seq<real>)
    ensures |w| == n
  {
    seq(n, i => if i == v then 1.0 else 0.0)
  }

  lemma {:induction false} UnitTotal(n: nat, v: nat)
    ensures Total(Unit(n, v)) == if v < n then 1.0 else 0.0
    decreases n
  {
    if n > 0 {
      assert Unit(n, v)[1..] == if v == 0 then Unit(n - 1, n) else Unit(n - 1, v - 1);
      UnitTotal(n - 1, if v == 0 then n else v - 1);
    }
  }

  lemma {:induction false} UnitWeighted(h: seq<real>, v: nat)
    ensures Weighted(Unit(|h|, v), h) == if v < |h| then h[v] else 0.0
    decreases |h|
  {
    if h != [] {
      var u := if v == 0 then |h| else v - 1;
      assert Unit(|h|, v)[1..] == Unit(|h| - 1, u);
      UnitWeighted(h[1..], u);
    }
  }

  /** The corners themselves are spanned. */
  lemma HullCorner(corners: seq<Vector3>, v: nat)
    requires |corners| == 8 && v < 8
    ensures HullHas(corners, Clamp(corners[v].x), Clamp(corners[v].y), Clamp(corners[v].z))
  {
    UnitTotal(8, v);
    UnitWeighted(Xs(corners), v);
    UnitWeighted(Ys(corners), v);
    UnitWeighted(Zs(corners), v);
    assert Combines(Unit(8, v), corners, Clamp(corners[v].x), Clamp(corners[v].y), Clamp(corners[v].z));
  }

  lemma HullPoint(p: Plane, corners: seq<Vector3>, v: nat) returns (x: real, y: real, z: real)
    requires |corners| == 8 && v < 8
    ensures HullHas(corners, x, y, z) && (HalfSpaceContains(p, corners[v]) <==> Dot(p, x, y, z) >= p.distance)
  {
    var c := corners[v];
    x, y, z := Clamp(c.x), Clamp(c.y), Clamp(c.z);
    HullCorner(corners, v);
    TestIs(p, c, x, y, z);
  }

  /** Finite corners are where their coordinates say. */
  lemma FiniteCorners(corners: seq<Vector3>, v: nat)
    requires v < |corners| && IsFloatVector(corners[v]) && IsFinite(corners[v])
    ensures Xs(corners)[v] == corners[v].x.r && Ys(corners)[v] == corners[v].y.r && Zs(corners)[v] == corners[v].z.r
  {
  }

  ghost function Hull(corners: seq<Vector3>): Points
    requires |corners| == 8
  {
    (x, y, z) => HullHas(corners, x, y, z)
  }

  lemma HullOutside(p: Plane, corners: seq<Vector3>)
    requires |corners| == 8
    ensures SideOf(p, corners) == Out <==> AllBelow(p, Hull(corners))
  {
    if SideOf(p, corners) == Out {
      forall x, y, z | Hull(corners)(x, y, z)
        ensures Dot(p, x, y, z) < p.distance
      {
        HullSide(p, corners, x, y, z);
      }
    } else {
      var v :| 0 <= v < 8 && HalfSpaceContains(p, corners[v]);
      var x, y, z := HullPoint(p, corners, v);
      assert Hull(corners)(x, y, z);
    }
  }

  lemma HullInside(p: Plane, corners: seq<Vector3>)
    requires |corners| == 8
    ensures SideOf(p, corners) == In <==> NoneBelow(p, Hull(corners))
  {
    NotAllIn(p, corners);
    if SideOf(p, corners) == In {
      forall x, y, z | Hull(corners)(x, y, z)
        ensures Dot(p, x, y, z) >= p.distance
      {
        HullSide(p, corners, x, y, z);
      }
    } else {
      var v :| 0 <= v < 8 && !HalfSpaceContains(p, corners[v]);
      var x, y, z := HullPoint(p, corners, v);
      assert Hull(corners)(x, y, z);
    }
  }

  /** Out if and only if everything the corners span is behind the plane. */
  lemma BoxOut(p: Plane, corners: seq<Vector3>)
    requires |corners| == 8
    ensures SideOf(p, corners) == Out <==> AllBehind(p, Hull(corners))
  {
    HullOutside(p, corners);
    WrittenOut(p, Hull(corners));
  }

  /** In if and only if nothing is. */
  lemma BoxIn(p: Plane, corners: seq<Vector3>)
    requires |corners| == 8
    ensures SideOf(p, corners) == In <==> NoneBehind(p, Hull(corners))
  {
    HullInside(p, corners);
    WrittenOut(p, Hull(corners));
  }

  /** The same of the box that eight corners span. */
  lemma BoxVerdict(planes: seq<Plane>, box: Box, mask: nat, culled: bool, cullingPlane: int)
    requires |box.corner| == 8 && IsVerdict(Sides(planes, box.corner), mask, culled, cullingPlane)
    ensures culled <==> exists p :: 0 <= p < |planes| && Bit(mask, p) && AllBehind(planes[p], Hull(box.corner))
    ensures culled ==> 0 <= cullingPlane < |planes| && Bit(mask, cullingPlane) && AllBehind(planes[cullingPlane], Hull(box.corner))
    ensures culled ==> forall p :: 0 <= p < cullingPlane && Bit(mask, p) ==> !AllBehind(planes[p], Hull(box.corner))
    ensures forall childMask, p: nat :: IsChildMask(Sides(planes, box.corner), mask, culled, cullingPlane, childMask) ==>
      (Bit(childMask, p) <==>
        if culled then p == cullingPlane
        else p < |planes| && Bit(mask, p) && !AllBehind(planes[p], Hull(box.corner)) && !NoneBehind(planes[p], Hull(box.corner)))
  {
    var sides := Sides(planes, box.corner);
    forall p | 0 <= p < |planes|
      ensures sides[p] == Out <==> AllBehind(planes[p], Hull(box.corner))
      ensures sides[p] == In <==> NoneBehind(planes[p], Hull(box.corner))
      ensures Culls(sides, mask, p) <==> Bit(mask, p) && AllBehind(planes[p], Hull(box.corner))
    {
      BoxOut(planes[p], box.corner);
      BoxIn(planes[p], box.corner);
    }
  }
}
