/** View-frustum culling of axis-aligned and of oriented boxes against a list of planes, with the
    masks that spare a box's descendants the planes it is wholly inside of. */
module Culling {
  import opened Bits

  const FLT_MAX: real := 340282346638528859811704183484516925440.0

  datatype Coord = NegInf | Fin(r: real) | PosInf

  datatype Vector3 = Vector3(x: Coord, y: Coord, z: Coord)

  datatype Plane = Plane(nx: real, ny: real, nz: real, distance: real)

  datatype AABox = AABox(lo: Vector3, hi: Vector3)

  datatype Box = Box(corner: seq<Vector3>)

  predicate IsFloat(c: Coord)
  {
    c.Fin? ==> -FLT_MAX <= c.r <= FLT_MAX
  }

  predicate AtMost(c: Coord, d: Coord)
  {
    c.NegInf? || d.PosInf? || (c.Fin? && d.Fin? && c.r <= d.r)
  }

  /** Clamping to the range of finite floats. */
  function Clamp(c: Coord): real
  {
    match c
    case NegInf => -FLT_MAX
    case PosInf => FLT_MAX
    case Fin(r) => if r < -FLT_MAX then -FLT_MAX else if r > FLT_MAX then FLT_MAX else r
  }

  function Dot(p: Plane, x: real, y: real, z: real): real
  {
    p.nx * x + p.ny * y + p.nz * z
  }

  predicate HalfSpaceContains(p: Plane, v: Vector3)
  {
    Dot(p, Clamp(v.x), Clamp(v.y), Clamp(v.z)) >= p.distance
  }

  predicate IsFinite(v: Vector3)
  {
    v.x.Fin? && v.y.Fin? && v.z.Fin?
  }

  /** The faster test, for finite points only. */
  predicate HalfSpaceContainsFinite(p: Plane, v: Vector3)
    requires IsFinite(v)
  {
    Dot(p, v.x.r, v.y.r, v.z.r) >= p.distance
  }

  predicate IsFloatVector(v: Vector3)
  {
    IsFloat(v.x) && IsFloat(v.y) && IsFloat(v.z)
  }

  /** Corner v of a box: bit 0 of v chooses along x, bit 1 along y, bit 2 along z. */
  function Corner(box: AABox, v: nat): Vector3
  {
    Vector3(if Bit(v, 0) then box.hi.x else box.lo.x,
            if Bit(v, 1) then box.hi.y else box.lo.y,
            if Bit(v, 2) then box.hi.z else box.lo.z)
  }

  function Corners(box: AABox): (s: seq<Vector3>)
    ensures |s| == 8
  {
    seq(8, v requires 0 <= v < 8 => Corner(box, v))
  }

  /** Where eight corners lie with respect to a plane: all on the side its normal points to, none,
      or some but not all. */
  datatype Side = In | Out | Straddling

  ghost function SideOf(p: Plane, corners: seq<Vector3>): Side
  {
    if forall v :: 0 <= v < |corners| ==> !HalfSpaceContains(p, corners[v]) then Out
    else if forall v :: 0 <= v < |corners| ==> HalfSpaceContains(p, corners[v]) then In
    else Straddling
  }

  ghost function Sides(planes: seq<Plane>, corners: seq<Vector3>): (s: seq<Side>)
    ensures |s| == |planes|
  {
    seq(|planes|, p requires 0 <= p < |planes| => SideOf(planes[p], corners))
  }

  /** Plane p is tested and has all of the box behind it. */
  ghost predicate Culls(sides: seq<Side>, mask: nat, p: int)
  {
    0 <= p < |sides| && Bit(mask, p) && sides[p] == Out
  }

  ghost predicate Culled(sides: seq<Side>, mask: nat)
  {
    exists p :: Culls(sides, mask, p)
  }

  /** The documented result: the first culling plane, or -1. */
  ghost predicate IsVerdict(sides: seq<Side>, mask: nat, culled: bool, cullingPlane: int)
  {
    if culled then Culls(sides, mask, cullingPlane) && forall p :: 0 <= p < cullingPlane ==> !Culls(sides, mask, p)
    else cullingPlane == -1 && forall p :: !Culls(sides, mask, p)
  }

  /** The mask for children: the tested planes the box straddles, or the culling plane alone. */
  ghost predicate IsChildMask(sides: seq<Side>, mask: nat, culled: bool, cullingPlane: int, childMask: nat)
  {
    forall p: nat :: Bit(childMask, p) <==>
      if culled then p == cullingPlane else p < |sides| && Bit(mask, p) && sides[p] == Straddling
  }

  ghost predicate AreFloats(box: AABox)
  {
    IsFloatVector(box.lo) && IsFloatVector(box.hi)
  }

  lemma FiniteTestAgrees(p: Plane, v: Vector3)
    requires IsFloatVector(v) && IsFinite(v)
    ensures HalfSpaceContainsFinite(p, v) <==> HalfSpaceContains(p, v)
  {
  }

  predicate BoxIsFinite(box: AABox)
  {
    IsFinite(box.lo) && IsFinite(box.hi)
  }

  method CornerContained(p: Plane, box: AABox, v: nat, finite: bool) returns (contained: bool)
    requires AreFloats(box) && v < 8 && finite == BoxIsFinite(box)
    ensures contained == HalfSpaceContains(p, Corners(box)[v])
  {
    var corner := Corner(box, v);
    if finite {
      FiniteTestAgrees(p, corner);
      contained := HalfSpaceContainsFinite(p, corner);
    } else {
      contained := HalfSpaceContains(p, corner);
    }
  }

  /** What the corner loop knows after v corners. */
  ghost predicate Counted(p: Plane, corners: seq<Vector3>, v: int, numContained: int)
  {
    && 0 <= numContained <= v <= |corners| == 8
    && (numContained == v ==> forall u :: 0 <= u < v ==> HalfSpaceContains(p, corners[u]))
    && (numContained == 0 ==> forall u :: 0 <= u < v ==> !HalfSpaceContains(p, corners[u]))
    && (0 < numContained < v ==> exists u, w :: 0 <= u < v && 0 <= w < v && HalfSpaceContains(p, corners[u])
                                               && !HalfSpaceContains(p, corners[w]))
  }

  lemma CountedStep(p: Plane, corners: seq<Vector3>, v: int, numContained: int)
    requires Counted(p, corners, v, numContained) && v < 8 && (numContained == v || numContained == 0)
    ensures Counted(p, corners, v + 1, if HalfSpaceContains(p, corners[v]) then numContained + 1 else numContained)
  {
    if v > 0 {
      assert 0 <= v - 1 < v && 0 <= v < v + 1;
      if numContained == v && !HalfSpaceContains(p, corners[v]) { assert HalfSpaceContains(p, corners[v - 1]); }
      if numContained == 0 && HalfSpaceContains(p, corners[v]) { assert !HalfSpaceContains(p, corners[v - 1]); }
    }
  }

  lemma CountedSide(p: Plane, corners: seq<Vector3>, v: int, numContained: int)
    requires Counted(p, corners, v, numContained) && !(v < 8 && (numContained == v || numContained == 0))
    ensures SideOf(p, corners) == if numContained == 0 then Out else if numContained < v then Straddling else In
  {
    assert numContained == 0 || numContained == v || 0 < numContained < v;
    if numContained == v { assert HalfSpaceContains(p, corners[0]); }
  }

  /** Counts corners on the near side, until both sides have one. */
  method CountAABoxCorners(p: Plane, box: AABox, finite: bool) returns (numContained: int, v: int)
    requires AreFloats(box) && finite == BoxIsFinite(box)
    ensures SideOf(p, Corners(box)) == if numContained == 0 then Out else if numContained < v then Straddling else In
  {
    numContained, v := 0, 0;
    // Corners on both sides settle the matter.
    while v < 8 && (numContained == v || numContained == 0)
      invariant Counted(p, Corners(box), v, numContained)
    {
      CountedStep(p, Corners(box), v, numContained);
      var contained := CornerContained(p, box, v, finite);
      if contained {
        numContained := numContained + 1;
      }
      v := v + 1;
    }
    CountedSide(p, Corners(box), v, numContained);
  }

  /** inMask is mask with the bits below p shifted out. */
  ghost predicate Shifted(mask: nat, inMask: nat, p: nat)
  {
    forall q: nat :: Bit(inMask, q) == Bit(mask, q + p)
  }

  lemma ShiftOne(mask: nat, inMask: nat, p: nat)
    requires Shifted(mask, inMask, p)
    ensures Shifted(mask, inMask / 2, p + 1)
  {
    forall q: nat ensures Bit(inMask / 2, q) == Bit(mask, q + (p + 1)) {
      assert Bit(inMask, q + 1) == Bit(mask, q + 1 + p);
    }
  }

  /** childMask holds the bits, below p, of the tested planes that the box straddles. */
  ghost predicate Gathered(sides: seq<Side>, mask: nat, p: nat, childMask: nat)
    requires p <= |sides|
  {
    forall q: nat :: Bit(childMask, q) <==> q < p && Bit(mask, q) && sides[q] == Straddling
  }

  lemma GatherFirst(sides: seq<Side>, mask: nat)
    ensures Gathered(sides, mask, 0, 0)
  {
    forall q: nat ensures !Bit(0, q) { BitZero(q); }
  }

  lemma GatherNext(sides: seq<Side>, mask: nat, p: nat, childMask: nat)
    requires p < |sides| && Gathered(sides, mask, p, childMask)
    ensures Gathered(sides, mask, p + 1,
              if Bit(mask, p) && sides[p] == Straddling then Or(childMask, Pow2(p)) else childMask)
  {
    if Bit(mask, p) && sides[p] == Straddling {
      forall q: nat ensures Bit(Or(childMask, Pow2(p)), q) <==> Bit(childMask, q) || q == p {
        BitOr(childMask, Pow2(p), q);
        BitPow2(p, q);
      }
    }
  }

  lemma OnlyBit(p: nat)
    ensures forall q: nat :: Bit(Pow2(p), q) <==> q == p
  {
    forall q: nat ensures Bit(Pow2(p), q) <==> q == p { BitPow2(p, q); }
  }

  method AABoxCulledByForChildren(planes: seq<Plane>, box: AABox, mask: nat)
    returns (culled: bool, cullingPlane: int, childMask: nat)
    requires AreFloats(box) && |planes| < 31
    ensures IsVerdict(Sides(planes, Corners(box)), mask, culled, cullingPlane)
    ensures IsChildMask(Sides(planes, Corners(box)), mask, culled, cullingPlane, childMask)
  {
    ghost var sides := Sides(planes, Corners(box));
    var inMask := mask;
    childMask := 0;
    GatherFirst(sides, mask);
    var finite := BoxIsFinite(box);
    for p := 0 to |planes|
      invariant Shifted(mask, inMask, p) && Gathered(sides, mask, p, childMask)
      invariant forall q :: 0 <= q < p ==> !Culls(sides, mask, q)
    {
      GatherNext(sides, mask, p, childMask);
      assert Bit(inMask, 0) == Bit(mask, 0 + p);
      if And(inMask, 1) != 0 {
        var numContained, v := CountAABoxCorners(planes[p], box, finite);
        if numContained == 0 {
          // Children of a culled box, if tested at all, are culled by the same plane.
          OnlyBit(p);
          return true, p, Pow2(p);
        } else if numContained < v {
          // Straddled, so children test it too.
          childMask := Or(childMask, Pow2(p));
        }
      }
      ShiftOne(mask, inMask, p);
      inMask := inMask / 2;
    }
    return false, -1, childMask;
  }

  method AABoxCulledBy(planes: seq<Plane>, box: AABox, mask: nat) returns (culled: bool, cullingPlane: int)
    requires AreFloats(box) && |planes| < 31
    ensures IsVerdict(Sides(planes, Corners(box)), mask, culled, cullingPlane)
  {
    ghost var sides := Sides(planes, Corners(box));
    var inMask := mask;
    var finite := BoxIsFinite(box);
    for p := 0 to |planes|
      invariant Shifted(mask, inMask, p)
      invariant forall q :: 0 <= q < p ==> !Culls(sides, mask, q)
    {
      assert Bit(inMask, 0) == Bit(mask, 0 + p);
      if And(inMask, 1) != 0 {
        var outside, v := true, 0;
        while v < 8 && outside
          invariant 0 <= v <= 8
          invariant outside ==> forall u :: 0 <= u < v ==> !HalfSpaceContains(planes[p], Corners(box)[u])
          invariant !outside ==> exists u :: 0 <= u < v && HalfSpaceContains(planes[p], Corners(box)[u])
        {
          var contained := CornerContained(planes[p], box, v, finite);
          outside := !contained;
          v := v + 1;
        }
        if outside {
          return true, p;
        }
      }
      ShiftOne(mask, inMask, p);
      inMask := inMask / 2;
    }
    return false, -1;
  }

  method CountBoxCorners(p: Plane, box: Box) returns (numContained: int, v: int)
    requires |box.corner| == 8
    ensures SideOf(p, box.corner) == if numContained == 0 then Out else if numContained < v then Straddling else In
  {
    numContained, v := 0, 0;
    while v < 8 && (numContained == v || numContained == 0)
      invariant Counted(p, box.corner, v, numContained)
    {
      CountedStep(p, box.corner, v, numContained);
      if HalfSpaceContains(p, box.corner[v]) {
        numContained := numContained + 1;
      }
      v := v + 1;
    }
    CountedSide(p, box.corner, v, numContained);
  }

  method BoxCulledByForChildren(planes: seq<Plane>, box: Box, mask: nat)
    returns (culled: bool, cullingPlane: int, childMask: nat)
    requires |box.corner| == 8 && |planes| < 31
    ensures IsVerdict(Sides(planes, box.corner), mask, culled, cullingPlane)
    ensures IsChildMask(Sides(planes, box.corner), mask, culled, cullingPlane, childMask)
  {
    ghost var sides := Sides(planes, box.corner);
    var inMask := mask;
    childMask := 0;
    GatherFirst(sides, mask);
    for p := 0 to |planes|
      invariant Shifted(mask, inMask, p) && Gathered(sides, mask, p, childMask)
      invariant forall q :: 0 <= q < p ==> !Culls(sides, mask, q)
    {
      GatherNext(sides, mask, p, childMask);
      assert Bit(inMask, 0) == Bit(mask, 0 + p);
      if And(inMask, 1) != 0 {
        var numContained, v := CountBoxCorners(planes[p], box);
        if numContained == 0 {
          OnlyBit(p);
          return true, p, Pow2(p);
        } else if numContained < v {
          childMask := Or(childMask, Pow2(p));
        }
      }
      ShiftOne(mask, inMask, p);
      inMask := inMask / 2;
    }
    return false, -1, childMask;
  }

  method BoxCulledBy(planes: seq<Plane>, box: Box, mask: nat) returns (culled: bool, cullingPlane: int)
    requires |box.corner| == 8 && |planes| < 31
    ensures IsVerdict(Sides(planes, box.corner), mask, culled, cullingPlane)
  {
    ghost var sides := Sides(planes, box.corner);
    var inMask := mask;
    for p := 0 to |planes|
      invariant Shifted(mask, inMask, p)
      invariant forall q :: 0 <= q < p ==> !Culls(sides, mask, q)
    {
      assert Bit(inMask, 0) == Bit(mask, 0 + p);
      if And(inMask, 1) != 0 {
        var outside, v := true, 0;
        while v < 8 && outside
          invariant 0 <= v <= 8
          invariant outside ==> forall u :: 0 <= u < v ==> !HalfSpaceContains(planes[p], box.corner[u])
          invariant !outside ==> exists u :: 0 <= u < v && HalfSpaceContains(planes[p], box.corner[u])
        {
          outside := !HalfSpaceContains(planes[p], box.corner[v]);
          v := v + 1;
        }
        if outside {
          return true, p;
        }
      }
      ShiftOne(mask, inMask, p);
      inMask := inMask / 2;
    }
    return false, -1;
  }
}
