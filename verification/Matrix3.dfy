/** Reductions of matrices in place, over exact reals and any function that takes square roots. */
module Matrix3 {
  import opened Matrices
  import opened Reflections

  ghost predicate TakesRoots(sqrt: real -> real)
  {
    forall x :: x >= 0.0 ==> sqrt(x) >= 0.0 && sqrt(x) * sqrt(x) == x
  }

  predicate IsMatrix(a: array2<real>)
  {
    a.Length0 == 3 && a.Length1 == 3
  }

  function Row(a: array2<real>, i: nat): Vector3
    requires IsMatrix(a) && i < 3
    reads a
  {
    Vector3(a[i, 0], a[i, 1], a[i, 2])
  }

  /** The matrix in a. */
  function Get(a: array2<real>): Matrix
    requires IsMatrix(a)
    reads a
  {
    Matrix(Row(a, 0), Row(a, 1), Row(a, 2))
  }

  method Set(a: array2<real>, m: Matrix)
    requires IsMatrix(a)
    modifies a
    ensures Get(a) == m
  {
    a[0, 0], a[0, 1], a[0, 2] := m.r0.x, m.r0.y, m.r0.z;
    a[1, 0], a[1, 1], a[1, 2] := m.r1.x, m.r1.y, m.r1.z;
    a[2, 0], a[2, 1], a[2, 2] := m.r2.x, m.r2.y, m.r2.z;
  }

  // The places that no later step reads, taken as zero.

  function ClearColumn(m: Matrix): Matrix
  {
    Matrix(m.r0, Vector3(0.0, m.r1.y, m.r1.z), Vector3(0.0, m.r2.y, m.r2.z))
  }

  function ClearRow(m: Matrix): Matrix
  {
    ClearColumn(m).(r0 := Vector3(m.r0.x, m.r0.y, 0.0))
  }

  /** The diagonal and the superdiagonal. */
  function Bidiagonal(m: Matrix): Matrix
  {
    ClearRow(m).(r2 := Vector3(0.0, 0.0, m.r2.z))
  }

  lemma NoLength(x: real, y: real, z: real, l: real)
    requires l * l == x * x + y * y + z * z && l >= 0.0 && !(l > 0.0)
    ensures x == 0.0 && y == 0.0 && z == 0.0
  {
    assert x * x >= 0.0 && y * y >= 0.0 && z * z >= 0.0;
    NoSquare(x);
    NoSquare(y);
    NoSquare(z);
  }

  lemma NoSquare(x: real)
    requires x * x == 0.0
    ensures x == 0.0
  {
    NoProduct(x, x);
  }

  lemma NoProduct(x: real, y: real)
    requires x * y == 0.0
    ensures x == 0.0 || y == 0.0
  {
  }

  /** What is left of x once v is taken off it t1 times. */
  predicate Vanishes(x: real, v: real, t1: real)
  {
    x + v * -t1 == 0.0
  }

  lemma ColumnCleared(m: Matrix, v: Vector3, t: real, t1: real)
    requires v.x == 1.0 && t * (m.r0.x + m.r1.x * v.y + m.r2.x * v.z) == -t1
    requires Vanishes(m.r1.x, v.y, t1) && Vanishes(m.r2.x, v.z, t1)
    ensures Times(Reflection(v, t), m) == ClearColumn(PlusOuter(m, v, Scale(t, RowTimes(v, m))))
  {
    LeftReflection(v, t, m);
    assert RowTimes(v, m).x == m.r0.x + m.r1.x * v.y + m.r2.x * v.z;
    assert Scale(t, RowTimes(v, m)).x == -t1;
  }

  lemma Reciprocal(x: real, t1: real)
    requires t1 != 0.0
    ensures x * (1.0 / t1) == x / t1
  {
  }

  /** fT2 times the columns along a vector that starts with 1. */
  lemma Weights(m: Matrix, v: Vector3, t: real)
    requires v.x == 1.0
    ensures var w := Scale(t, RowTimes(v, m));
            w.x == t * (m.r0.x + m.r1.x * v.y + m.r2.x * v.z)
            && w.y == t * (m.r0.y + m.r1.y * v.y + m.r2.y * v.z)
            && w.z == t * (m.r0.z + m.r1.z * v.y + m.r2.z * v.z)
  {
  }

  /** sqrt of a sum of squares */
  method Length(a: real, b: real, c: real, sqrt: real -> real) returns (fLength: real)
    requires TakesRoots(sqrt)
    ensures fLength * fLength == a * a + b * b + c * c
    ensures fLength > 0.0 || a == b == c == 0.0
  {
    SumOfSquares(a, b, c);
    fLength := sqrt(a * a + b * b + c * c);
    if !(fLength > 0.0) { NoLength(a, b, c, fLength); }
  }

  /** The vector (1, v1, v2) and the factor of the reflection that takes (a, b, c) to the first axis. */
  method ReflectionFor(a: real, b: real, c: real, fLength: real) returns (fT1: real, v1: real, v2: real, fT2: real)
    requires fLength > 0.0 && fLength * fLength == a * a + b * b + c * c
    ensures fT2 * Dot(Vector3(1.0, v1, v2), Vector3(1.0, v1, v2)) == -2.0
    ensures fT2 * (a + b * v1 + c * v2) == -fT1 && Vanishes(b, v1, fT1) && Vanishes(c, v2, fT1)
  {
    var fSign := if a > 0.0 then 1.0 else -1.0;
    Householder(a, b, c, fLength, fSign);
    fT1 := a + fSign * fLength;
    var fInvT1 := 1.0 / fT1;
    v1, v2 := b * fInvT1, c * fInvT1;
    Reciprocal(b, fT1);
    Reciprocal(c, fT1);
    fT2 := -2.0 / (1.0 + v1 * v1 + v2 * v2);
  }

  /** The identity, or a reflection. */
  ghost predicate Reflects(h: Matrix)
  {
    h == IDENTITY || exists v, t :: h == Reflection(v, t) && t * Dot(v, v) == -2.0
  }

  lemma ReflectsOrthogonal(h: Matrix)
    requires Reflects(h)
    ensures Orthogonal(h) && Transpose(h) == h && Times(h, h) == IDENTITY
  {
    if h != IDENTITY {
      var v, t :| h == Reflection(v, t) && t * Dot(v, v) == -2.0;
      ReflectionOrthogonal(v, t);
      ReflectionSymmetric(v, t);
    }
  }

  method ReflectFirstColumn(kA: array2<real>, kL: array2<real>, fLength: real) returns (ghost h: Matrix)
    requires IsMatrix(kA) && IsMatrix(kL) && kA != kL && fLength > 0.0
    requires fLength * fLength == kA[0, 0] * kA[0, 0] + kA[1, 0] * kA[1, 0] + kA[2, 0] * kA[2, 0]
    modifies kA, kL
    ensures Reflects(h) && Get(kL) == h
    ensures ClearColumn(Get(kA)) == Times(h, old(Get(kA)))
  {
    var fT1, v1, v2, fT2 := ReflectionFor(kA[0, 0], kA[1, 0], kA[2, 0], fLength);
    ghost var v := Vector3(1.0, v1, v2);
    h := Reflection(v, fT2);
    ColumnCleared(Get(kA), v, fT2, fT1);
    ReflectAll(kA, v1, v2, fT2);
    PutReflection(kL, v1, v2, fT2);
  }

  /** Clears the first column below the diagonal. */
  method MapFirstColumn(kA: array2<real>, kL: array2<real>, sqrt: real -> real) returns (bIdentity: bool, ghost h: Matrix)
    requires IsMatrix(kA) && IsMatrix(kL) && kA != kL && TakesRoots(sqrt)
    modifies kA, kL
    ensures Reflects(h) && Get(kL) == h && (bIdentity ==> h == IDENTITY)
    ensures ClearColumn(Get(kA)) == Times(h, old(Get(kA)))
  {
    var fLength := Length(kA[0, 0], kA[1, 0], kA[2, 0], sqrt);
    if fLength > 0.0 {
      h := ReflectFirstColumn(kA, kL, fLength);
      bIdentity := false;
    } else {
      ghost var m := Get(kA);
      assert m.r1.x == m.r2.x == 0.0;
      Set(kL, IDENTITY);
      assert Get(kA) == m;
      h := IDENTITY;
      NoColumn(m);
      bIdentity := true;
    }
  }

  lemma NoColumn(m: Matrix)
    requires m.r1.x == m.r2.x == 0.0
    ensures ClearColumn(m) == Times(IDENTITY, m)
  {
    TimesIdentity(m);
  }

  lemma SumOfSquares(x: real, y: real, z: real)
    ensures x * x + y * y + z * z >= 0.0 && x * x + y * y >= 0.0
  {
  }

  /** Reflects every column along (1, v1, v2), but for the places of the first that become zero. */
  method ReflectAll(kA: array2<real>, v1: real, v2: real, fT2: real)
    requires IsMatrix(kA)
    modifies kA
    ensures var m, v := old(Get(kA)), Vector3(1.0, v1, v2);
            ClearColumn(Get(kA)) == ClearColumn(PlusOuter(m, v, Scale(fT2, RowTimes(v, m))))
  {
    ghost var m, v := Get(kA), Vector3(1.0, v1, v2);
    Weights(m, v, fT2);
    var w0 := fT2 * (kA[0, 0] + kA[1, 0] * v1 + kA[2, 0] * v2);
    var w1 := fT2 * (kA[0, 1] + kA[1, 1] * v1 + kA[2, 1] * v2);
    var w2 := fT2 * (kA[0, 2] + kA[1, 2] * v1 + kA[2, 2] * v2);
    ghost var w := Scale(fT2, RowTimes(v, m));
    assert w == Vector3(w0, w1, w2);
    AddTo(kA, Vector3(w0, w1, w2), Vector3(0.0, v1 * w1, v1 * w2), Vector3(0.0, v2 * w1, v2 * w2));
    Reflected(m, v, w, Get(kA));
  }

  /** Adds to the rows of a matrix. */
  method AddTo(kA: array2<real>, d0: Vector3, d1: Vector3, d2: Vector3)
    requires IsMatrix(kA)
    modifies kA
    ensures var m := old(Get(kA));
            Get(kA) == Matrix(PlusScaled(m.r0, 1.0, d0), PlusScaled(m.r1, 1.0, d1), PlusScaled(m.r2, 1.0, d2))
  {
    kA[0, 0] := kA[0, 0] + d0.x;
    kA[0, 1] := kA[0, 1] + d0.y;
    kA[0, 2] := kA[0, 2] + d0.z;
    kA[1, 0] := kA[1, 0] + d1.x;
    kA[1, 1] := kA[1, 1] + d1.y;
    kA[1, 2] := kA[1, 2] + d1.z;
    kA[2, 0] := kA[2, 0] + d2.x;
    kA[2, 1] := kA[2, 1] + d2.y;
    kA[2, 2] := kA[2, 2] + d2.z;
  }

  lemma Reflected(m: Matrix, v: Vector3, w: Vector3, k: Matrix)
    requires v.x == 1.0 && k.r0 == Vector3(m.r0.x + w.x, m.r0.y + w.y, m.r0.z + w.z)
    requires k.r1.y == m.r1.y + v.y * w.y && k.r1.z == m.r1.z + v.y * w.z
    requires k.r2.y == m.r2.y + v.z * w.y && k.r2.z == m.r2.z + v.z * w.z
    ensures ClearColumn(k) == ClearColumn(PlusOuter(m, v, w))
  {
  }

  method PutReflection(kL: array2<real>, v1: real, v2: real, fT2: real)
    requires IsMatrix(kL)
    modifies kL
    ensures Get(kL) == Reflection(Vector3(1.0, v1, v2), fT2)
  {
    kL[0, 0] := 1.0 + fT2;
    kL[1, 0] := fT2 * v1;
    kL[0, 1] := kL[1, 0];
    kL[2, 0] := fT2 * v2;
    kL[0, 2] := kL[2, 0];
    kL[1, 1] := 1.0 + fT2 * v1 * v1;
    kL[2, 1] := fT2 * v1 * v2;
    kL[1, 2] := kL[2, 1];
    kL[2, 2] := 1.0 + fT2 * v2 * v2;
    assert fT2 * v1 * v2 == fT2 * v2 * v1;
  }

  // Reflections that leave the first axis.

  /** The reflection along (0, 1, v). */
  function Planar(v: real, t: real): Matrix
  {
    Matrix(Vector3(1.0, 0.0, 0.0), Vector3(0.0, 1.0 + t, t * v), Vector3(0.0, t * v, 1.0 + t * v * v))
  }

  lemma PlanarReflects(v: real, t: real)
    requires t * (1.0 + v * v) == -2.0
    ensures Planar(v, t) == Reflection(Vector3(0.0, 1.0, v), t) && Reflects(Planar(v, t))
  {
    var d := Vector3(0.0, 1.0, v);
    assert Dot(d, d) == 1.0 + v * v;
    assert t * Dot(d, d) == -2.0;
    assert Planar(v, t) == Reflection(d, t);
  }

  method PlanarFor(a: real, b: real, fLength: real) returns (fT1: real, v: real, fT2: real)
    requires fLength > 0.0 && fLength * fLength == a * a + b * b
    ensures fT2 * (1.0 + v * v) == -2.0 && fT2 * (a + b * v) == -fT1 && Vanishes(b, v, fT1)
  {
    var fSign := if a > 0.0 then 1.0 else -1.0;
    Householder(a, b, 0.0, fLength, fSign);
    fT1 := a + fSign * fLength;
    v := b / fT1;
    fT2 := -2.0 / (1.0 + v * v);
  }

  /** The first row is cleared from the right. */
  lemma RowCleared(m: Matrix, v: real, t: real, t1: real, w: Vector3, k: Matrix)
    requires t * (1.0 + v * v) == -2.0 && ClearColumn(m) == m && Vanishes(m.r0.z, v, t1) && w.x == -t1
    requires w == Vector3(t * (m.r0.y + m.r0.z * v), t * (m.r1.y + m.r1.z * v), t * (m.r2.y + m.r2.z * v))
    requires k.r0.x == m.r0.x && k.r0.y == m.r0.y + w.x
    requires k.r1.y == m.r1.y + w.y && k.r1.z == m.r1.z + w.y * v
    requires k.r2.y == m.r2.y + w.z && k.r2.z == m.r2.z + w.z * v
    ensures Times(m, Planar(v, t)) == ClearRow(k)
  {
    var d, c := Vector3(0.0, 1.0, v), Transpose(m);
    PlanarReflects(v, t);
    RightReflection(d, t, m);
    assert RowTimes(d, c) == Vector3(m.r0.y + m.r0.z * v, m.r1.y + m.r1.z * v, m.r2.y + m.r2.z * v);
    assert Scale(t, RowTimes(d, c)) == w;
    PlanarOuter(c, v, w);
  }

  lemma PlanarOuter(m: Matrix, v: real, w: Vector3)
    ensures PlusOuter(m, Vector3(0.0, 1.0, v), w)
            == Matrix(m.r0, Vector3(m.r1.x + w.x, m.r1.y + w.y, m.r1.z + w.z),
                      Vector3(m.r2.x + v * w.x, m.r2.y + v * w.y, m.r2.z + v * w.z))
  {
    var p := PlusOuter(m, Vector3(0.0, 1.0, v), w);
    assert p.r0 == PlusScaled(m.r0, 0.0, w) == Vector3(m.r0.x, m.r0.y, m.r0.z) == m.r0;
    assert p.r1 == PlusScaled(m.r1, 1.0, w);
    assert p.r2 == PlusScaled(m.r2, v, w);
  }

  /** The second column is cleared from the left. */
  lemma SecondCleared(m: Matrix, v: real, t: real, t1: real, w1: real, w2: real, k: Matrix)
    requires t * (1.0 + v * v) == -2.0 && ClearRow(m) == m && Vanishes(m.r2.y, v, t1) && w1 == -t1
    requires w1 == t * (m.r1.y + m.r2.y * v) && w2 == t * (m.r1.z + m.r2.z * v)
    requires k.r0.x == m.r0.x && k.r0.y == m.r0.y && k.r1.y == m.r1.y + w1 && k.r1.z == m.r1.z + w2
    requires k.r2.z == m.r2.z + v * w2
    ensures Times(Planar(v, t), m) == Bidiagonal(k)
  {
    var d, w := Vector3(0.0, 1.0, v), Vector3(0.0, w1, w2);
    PlanarReflects(v, t);
    LeftReflection(d, t, m);
    assert RowTimes(d, m) == Vector3(0.0, m.r1.y + m.r2.y * v, m.r1.z + m.r2.z * v);
    assert Scale(t, RowTimes(d, m)) == w;
    PlanarOuter(m, v, w);
  }

  lemma TimesPlanar(a: Vector3, v: real, t: real)
    ensures RowTimes(a, Planar(v, t))
            == Vector3(a.x, (1.0 + t) * a.y + (t * v) * a.z, (t * v) * a.y + (1.0 + t * v * v) * a.z)
  {
  }

  /** What reflecting the rows along (0, 1, v) leaves in m. */
  predicate RowsReflected(m: Matrix, v: real, t: real, w: Vector3, k: Matrix)
  {
    w == Vector3(t * (m.r0.y + m.r0.z * v), t * (m.r1.y + m.r1.z * v), t * (m.r2.y + m.r2.z * v))
    && k.r0.x == m.r0.x && k.r0.y == m.r0.y + w.x
    && k.r1.y == m.r1.y + w.y && k.r1.z == m.r1.z + w.y * v
    && k.r2.y == m.r2.y + w.z && k.r2.z == m.r2.z + w.z * v
  }

  method RowWeights(kA: array2<real>, v: real, fT2: real) returns (w0: real, w1: real, w2: real)
    requires IsMatrix(kA)
    ensures var m := Get(kA);
            w0 == fT2 * (m.r0.y + m.r0.z * v) && w1 == fT2 * (m.r1.y + m.r1.z * v) && w2 == fT2 * (m.r2.y + m.r2.z * v)
  {
    w0 := fT2 * (kA[0, 1] + kA[0, 2] * v);
    w1 := fT2 * (kA[1, 1] + kA[1, 2] * v);
    w2 := fT2 * (kA[2, 1] + kA[2, 2] * v);
  }

  lemma RowsAdded(m: Matrix, v: real, t: real, w: Vector3, p1: real, p2: real)
    requires w == Vector3(t * (m.r0.y + m.r0.z * v), t * (m.r1.y + m.r1.z * v), t * (m.r2.y + m.r2.z * v))
    requires p1 == w.y * v && p2 == w.z * v
    ensures RowsReflected(m, v, t, w, Matrix(PlusScaled(m.r0, 1.0, Vector3(0.0, w.x, 0.0)),
                                             PlusScaled(m.r1, 1.0, Vector3(0.0, w.y, p1)),
                                             PlusScaled(m.r2, 1.0, Vector3(0.0, w.z, p2))))
  {
  }

  method ReflectRows(kA: array2<real>, v: real, fT2: real) returns (ghost w: Vector3)
    requires IsMatrix(kA)
    modifies kA
    ensures RowsReflected(old(Get(kA)), v, fT2, w, Get(kA))
  {
    var w0, w1, w2 := RowWeights(kA, v, fT2);
    var p1, p2 := w1 * v, w2 * v;
    w := Vector3(w0, w1, w2);
    RowsAdded(Get(kA), v, fT2, w, p1, p2);
    AddTo(kA, Vector3(0.0, w0, 0.0), Vector3(0.0, w1, p1), Vector3(0.0, w2, p2));
  }

  lemma RowsCleared(m: Matrix, v: real, t: real, t1: real, w: Vector3, k: Matrix)
    requires t * (1.0 + v * v) == -2.0 && t * (m.r0.y + m.r0.z * v) == -t1 && Vanishes(m.r0.z, v, t1)
    requires RowsReflected(m, v, t, w, k)
    ensures Reflects(Planar(v, t)) && ClearRow(k) == Times(ClearColumn(m), Planar(v, t))
  {
    PlanarReflects(v, t);
    RowCleared(ClearColumn(m), v, t, t1, w, k);
  }

  /** Clears the corner of the first row. */
  method MapFirstRow(kA: array2<real>, kR: array2<real>, sqrt: real -> real) returns (ghost g: Matrix)
    requires IsMatrix(kA) && IsMatrix(kR) && kA != kR && TakesRoots(sqrt)
    modifies kA, kR
    ensures Reflects(g) && Get(kR) == g
    ensures ClearRow(Get(kA)) == Times(ClearColumn(old(Get(kA))), g)
  {
    ghost var m := Get(kA);
    var fLength := Length(kA[0, 1], kA[0, 2], 0.0, sqrt);
    if fLength > 0.0 {
      var fT1, v, fT2 := PlanarFor(kA[0, 1], kA[0, 2], fLength);
      ghost var w := ReflectRows(kA, v, fT2);
      Set(kR, Planar(v, fT2));
      g := Planar(v, fT2);
      RowsCleared(m, v, fT2, fT1, w, Get(kA));
    } else {
      assert m.r0.z == 0.0;
      Set(kR, IDENTITY);
      assert Get(kA) == m;
      g := IDENTITY;
      TimesIdentity(ClearColumn(m));
    }
  }

  /** What reflecting the columns along (0, 1, v) leaves in m. */
  predicate SecondReflected(m: Matrix, v: real, t: real, w1: real, w2: real, k: Matrix)
  {
    w1 == t * (m.r1.y + m.r2.y * v) && w2 == t * (m.r1.z + m.r2.z * v)
    && k.r0 == m.r0 && k.r1.y == m.r1.y + w1 && k.r1.z == m.r1.z + w2 && k.r2.z == m.r2.z + v * w2
  }

  method ReflectSecondColumn(kA: array2<real>, v: real, fT2: real) returns (w1: real, w2: real)
    requires IsMatrix(kA)
    modifies kA
    ensures SecondReflected(old(Get(kA)), v, fT2, w1, w2, Get(kA))
  {
    w1 := fT2 * (kA[1, 1] + kA[2, 1] * v);
    w2 := fT2 * (kA[1, 2] + kA[2, 2] * v);
    kA[1, 1] := kA[1, 1] + w1;
    kA[1, 2] := kA[1, 2] + w2;
    kA[2, 2] := kA[2, 2] + v * w2;
  }

  lemma SecondColumnCleared(m: Matrix, v: real, t: real, t1: real, w1: real, w2: real, k: Matrix)
    requires t * (1.0 + v * v) == -2.0 && t * (m.r1.y + m.r2.y * v) == -t1 && Vanishes(m.r2.y, v, t1)
    requires SecondReflected(m, v, t, w1, w2, k)
    ensures Reflects(Planar(v, t)) && Bidiagonal(k) == Times(Planar(v, t), ClearRow(m))
  {
    PlanarReflects(v, t);
    SecondCleared(ClearRow(m), v, t, t1, w1, w2, k);
  }

  method TurnRows(kL: array2<real>, v: real, fT2: real)
    requires IsMatrix(kL)
    modifies kL
    ensures Get(kL) == Times(old(Get(kL)), Planar(v, fT2))
  {
    var fA := 1.0 + fT2;
    var fB := fT2 * v;
    var fC := 1.0 + fB * v;
    ghost var l := Get(kL);
    TurnEach(kL, fA, fB, fC);
    TimesPlanar(l.r0, v, fT2);
    TimesPlanar(l.r1, v, fT2);
    TimesPlanar(l.r2, v, fT2);
  }

  method TurnEach(kL: array2<real>, fA: real, fB: real, fC: real)
    requires IsMatrix(kL)
    modifies kL
    ensures var l := old(Get(kL));
            Get(kL) == Matrix(Turned(l.r0, fA, fB, fC), Turned(l.r1, fA, fB, fC), Turned(l.r2, fA, fB, fC))
  {
    ghost var l := Get(kL);
    ghost var r0, r1, r2 := Turned(l.r0, fA, fB, fC), Turned(l.r1, fA, fB, fC), Turned(l.r2, fA, fB, fC);
    for iRow := 0 to 3
      invariant Get(kL).r0 == if iRow > 0 then r0 else l.r0
      invariant Get(kL).r1 == if iRow > 1 then r1 else l.r1
      invariant Get(kL).r2 == if iRow > 2 then r2 else l.r2
    {
      TurnRow(kL, iRow, fA, fB, fC);
    }
  }

  function Turned(r: Vector3, fA: real, fB: real, fC: real): Vector3
  {
    Vector3(r.x, fA * r.y + fB * r.z, fB * r.y + fC * r.z)
  }

  /** kL becomes kL times the reflection along (0, 1, v). */
  method TurnLeft(kL: array2<real>, v: real, fT2: real, bIdentity: bool)
    requires IsMatrix(kL) && (bIdentity ==> Get(kL) == IDENTITY)
    modifies kL
    ensures Get(kL) == Times(old(Get(kL)), Planar(v, fT2))
  {
    if bIdentity {
      var fA := 1.0 + fT2;
      var fB := fT2 * v;
      var fC := 1.0 + fB * v;
      kL[0, 0], kL[1, 0], kL[0, 1], kL[2, 0], kL[0, 2] := 1.0, 0.0, 0.0, 0.0, 0.0;
      kL[1, 1], kL[2, 1], kL[1, 2], kL[2, 2] := fA, fB, fB, fC;
      assert Get(kL) == Planar(v, fT2);
      TimesIdentity(Planar(v, fT2));
    } else {
      TurnRows(kL, v, fT2);
    }
  }

  method TurnRow(kL: array2<real>, iRow: nat, fA: real, fB: real, fC: real)
    requires IsMatrix(kL) && iRow < 3
    modifies kL
    ensures Row(kL, iRow) == Turned(old(Row(kL, iRow)), fA, fB, fC)
    ensures forall i, j :: 0 <= i < 3 && 0 <= j < 3 && i != iRow ==> kL[i, j] == old(kL[i, j])
  {
    var fTmp0 := kL[iRow, 1];
    var fTmp1 := kL[iRow, 2];
    kL[iRow, 1] := fA * fTmp0 + fB * fTmp1;
    kL[iRow, 2] := fB * fTmp0 + fC * fTmp1;
  }

  /** Clears the second column below the diagonal. */
  method MapSecondColumn(kA: array2<real>, kL: array2<real>, bIdentity: bool, sqrt: real -> real) returns (ghost h: Matrix)
    requires IsMatrix(kA) && IsMatrix(kL) && kA != kL && TakesRoots(sqrt) && (bIdentity ==> Get(kL) == IDENTITY)
    modifies kA, kL
    ensures Reflects(h) && Get(kL) == Times(old(Get(kL)), h)
    ensures Bidiagonal(Get(kA)) == Times(h, ClearRow(old(Get(kA))))
  {
    ghost var m, l := Get(kA), Get(kL);
    var fLength := Length(kA[1, 1], kA[2, 1], 0.0, sqrt);
    if fLength > 0.0 {
      var fT1, v, fT2 := PlanarFor(kA[1, 1], kA[2, 1], fLength);
      var w1, w2 := ReflectSecondColumn(kA, v, fT2);
      TurnLeft(kL, v, fT2, bIdentity);
      h := Planar(v, fT2);
      SecondColumnCleared(m, v, fT2, fT1, w1, w2, Get(kA));
    } else {
      assert m.r2.y == 0.0;
      h := IDENTITY;
      TimesIdentity(ClearRow(m));
      TimesIdentity(l);
    }
  }

  /** Three reflections, undone in turn. */
  lemma Undone(m: Matrix, h: Matrix, c: Matrix, g: Matrix, d: Matrix, k: Matrix, b: Matrix)
    requires Reflects(h) && Reflects(g) && Reflects(k)
    requires c == Times(h, m) && d == Times(c, g) && b == Times(k, d)
    ensures Orthogonal(Times(h, k)) && Orthogonal(g)
    ensures Times(Times(Times(h, k), b), g) == m
  {
    ReflectsOrthogonal(h);
    ReflectsOrthogonal(g);
    ReflectsOrthogonal(k);
    OrthogonalTimes(h, k);
    Between(h, k, d);
    Again(c, g);
    TimesAssoc(h, d, g);
    TimesAssoc(h, h, m);
    TimesIdentity(m);
  }

  lemma Between(h: Matrix, k: Matrix, d: Matrix)
    requires Times(k, k) == IDENTITY
    ensures Times(Times(h, k), Times(k, d)) == Times(h, d)
  {
    TimesAssoc(h, k, Times(k, d));
    TimesAssoc(k, k, d);
    TimesIdentity(d);
  }

  lemma Again(c: Matrix, g: Matrix)
    requires Times(g, g) == IDENTITY
    ensures Times(Times(c, g), g) == c
  {
    TimesAssoc(c, g, g);
    TimesIdentity(c);
  }

  /** Householder reduction to bidiagonal form: of kA only the diagonal and the superdiagonal are of use
      after it. */
  method Bidiagonalize(kA: array2<real>, kL: array2<real>, kR: array2<real>, sqrt: real -> real)
    requires IsMatrix(kA) && IsMatrix(kL) && IsMatrix(kR) && kA != kL && kA != kR && kL != kR && TakesRoots(sqrt)
    modifies kA, kL, kR
    ensures Orthogonal(Get(kL)) && Orthogonal(Get(kR))
    ensures Times(Times(Get(kL), Bidiagonal(Get(kA))), Get(kR)) == old(Get(kA))
  {
    ghost var m := Get(kA);
    var bIdentity;
    ghost var h, g, k;
    bIdentity, h := MapFirstColumn(kA, kL, sqrt);
    ghost var c := ClearColumn(Get(kA));
    g := MapFirstRow(kA, kR, sqrt);
    ghost var d := ClearRow(Get(kA));
    k := MapSecondColumn(kA, kL, bIdentity, sqrt);
    Undone(m, h, c, g, d, k, Bidiagonal(Get(kA)));
  }

  // Symmetric matrices.

  const EPSILON := 0.000001

  /** The symmetric matrix with m's diagonal and what is above it. */
  function Mirrored(m: Matrix): Matrix
  {
    Matrix(m.r0, Vector3(m.r0.y, m.r1.y, m.r1.z), Vector3(m.r0.z, m.r1.z, m.r2.z))
  }

  /** The symmetric tridiagonal matrix with diagonal d and s beside it. */
  function Tridiagonal(d: Vector3, s0: real, s1: real): Matrix
  {
    Matrix(Vector3(d.x, s0, 0.0), Vector3(s0, d.y, s1), Vector3(0.0, s1, d.z))
  }

  /** Q T QT */
  function Conjugated(q: Matrix, t: Matrix): Matrix
  {
    Times(Times(q, t), Transpose(q))
  }

  /** The symmetric orthogonal matrix that takes the unit vector (b, c) to the axis. */
  function Turn(b: real, c: real): Matrix
  {
    Matrix(Vector3(1.0, 0.0, 0.0), Vector3(0.0, b, c), Vector3(0.0, c, -b))
  }

  lemma TurnOrthogonal(b: real, c: real)
    requires b * b + c * c == 1.0
    ensures Orthogonal(Turn(b, c)) && Times(Turn(b, c), Turn(b, c)) == IDENTITY && Transpose(Turn(b, c)) == Turn(b, c)
  {
  }

  /** The rows (d, e) and (e, f) of a symmetric block, turned on both sides. */
  lemma TurnedUpper(b: real, c: real, d: real, e: real, f: real, q: real)
    requires b * b + c * c == 1.0 && q == 2.0 * b * e + c * (f - d)
    ensures b * (b * d + c * e) + c * (b * e + c * f) == d + c * q
  {
    var bb, cc, bc := b * b, c * c, b * c;
    assert b * (b * d + c * e) == bb * d + bc * e && c * (b * e + c * f) == bc * e + cc * f;
    assert c * q == 2.0 * (bc * e) + (cc * f - cc * d);
    assert cc * d == d - bb * d;
  }

  lemma TurnedBeside(b: real, c: real, d: real, e: real, f: real, q: real)
    requires b * b + c * c == 1.0 && q == 2.0 * b * e + c * (f - d)
    ensures c * (b * d + c * e) - b * (b * e + c * f) == e - b * q
  {
    var bb, cc, bc := b * b, c * c, b * c;
    assert c * (b * d + c * e) == bc * d + cc * e && b * (b * e + c * f) == bb * e + bc * f;
    assert b * q == 2.0 * (bb * e) + (bc * f - bc * d);
    assert cc * e == e - bb * e;
  }

  lemma Crossed(b: real, c: real, d: real, e: real, f: real)
    ensures b * (c * d - b * e) + c * (c * e - b * f) == c * (b * d + c * e) - b * (b * e + c * f)
  {
  }

  lemma TurnedLower(b: real, c: real, d: real, e: real, f: real, q: real)
    requires b * b + c * c == 1.0 && q == 2.0 * b * e + c * (f - d)
    ensures c * (c * d - b * e) - b * (c * e - b * f) == f - c * q
  {
    var bb, cc, bc := b * b, c * c, b * c;
    assert c * (c * d - b * e) == cc * d - bc * e && b * (c * e - b * f) == bc * e - bb * f;
    assert c * q == 2.0 * (bc * e) + (cc * f - cc * d);
    assert cc * f == f - bb * f;
  }

  lemma TurnRowsOf(m: Matrix, b: real, c: real)
    ensures Times(Turn(b, c), m)
            == Matrix(m.r0, Vector3(b * m.r1.x + c * m.r2.x, b * m.r1.y + c * m.r2.y, b * m.r1.z + c * m.r2.z),
                      Vector3(c * m.r1.x - b * m.r2.x, c * m.r1.y - b * m.r2.y, c * m.r1.z - b * m.r2.z))
  {
  }

  lemma TurnedRow(a: Vector3, b: real, c: real, u: real, v: real)
    requires b * a.y + c * a.z == u && c * a.y - b * a.z == v
    ensures RowTimes(a, Turn(b, c)) == Vector3(a.x, u, v)
  {
  }

  lemma UpperRow(u: Vector3, b: real, c: real, d: real, e: real, f: real, q: real)
    requires b * b + c * c == 1.0 && q == 2.0 * b * e + c * (f - d)
    requires u.y == b * d + c * e && u.z == b * e + c * f
    ensures RowTimes(u, Turn(b, c)) == Vector3(u.x, d + c * q, e - b * q)
  {
    TurnedUpper(b, c, d, e, f, q);
    TurnedBeside(b, c, d, e, f, q);
    TurnedRow(u, b, c, d + c * q, e - b * q);
  }

  lemma LowerRow(v: Vector3, b: real, c: real, d: real, e: real, f: real, q: real)
    requires b * b + c * c == 1.0 && q == 2.0 * b * e + c * (f - d)
    requires v.y == c * d - b * e && v.z == c * e - b * f
    ensures RowTimes(v, Turn(b, c)) == Vector3(v.x, e - b * q, f - c * q)
  {
    TurnedBeside(b, c, d, e, f, q);
    Crossed(b, c, d, e, f);
    TurnedLower(b, c, d, e, f, q);
    TurnedRow(v, b, c, e - b * q, f - c * q);
  }

  lemma TurnedLengths(b: real, c: real, l: real)
    requires b * b + c * c == 1.0
    ensures b * (b * l) + c * (c * l) == l && c * (b * l) - b * (c * l) == 0.0
  {
    assert b * (b * l) + c * (c * l) == (b * b + c * c) * l;
  }

  lemma TurnedLeft(m: Matrix, l: real, b: real, c: real, u: Vector3, v: Vector3)
    requires Mirrored(m) == m && b * b + c * c == 1.0 && m.r0.y == b * l && m.r0.z == c * l
    requires u == Vector3(l, b * m.r1.y + c * m.r1.z, b * m.r1.z + c * m.r2.z)
    requires v == Vector3(0.0, c * m.r1.y - b * m.r1.z, c * m.r1.z - b * m.r2.z)
    ensures Times(Turn(b, c), m) == Matrix(m.r0, u, v)
  {
    TurnRowsOf(m, b, c);
    TurnedLengths(b, c, l);
  }

  lemma TurnedRight(r0: Vector3, u: Vector3, v: Vector3, l: real, b: real, c: real, d: real, e: real, f: real, q: real)
    requires b * b + c * c == 1.0 && q == 2.0 * b * e + c * (f - d) && r0.y == b * l && r0.z == c * l
    requires u == Vector3(l, b * d + c * e, b * e + c * f) && v == Vector3(0.0, c * d - b * e, c * e - b * f)
    ensures Times(Matrix(r0, u, v), Turn(b, c)) == Tridiagonal(Vector3(r0.x, d + c * q, f - c * q), l, e - b * q)
  {
    TurnedLengths(b, c, l);
    TurnedRow(r0, b, c, l, 0.0);
    UpperRow(u, b, c, d, e, f, q);
    LowerRow(v, b, c, d, e, f, q);
  }

  /** Turning m makes it tridiagonal. */
  lemma TurnedTridiagonal(m: Matrix, l: real, b: real, c: real, q: real)
    requires Mirrored(m) == m && b * b + c * c == 1.0 && m.r0.y == b * l && m.r0.z == c * l
    requires q == 2.0 * b * m.r1.z + c * (m.r2.z - m.r1.y)
    ensures Times(Times(Turn(b, c), m), Turn(b, c))
            == Tridiagonal(Vector3(m.r0.x, m.r1.y + c * q, m.r2.z - c * q), l, m.r1.z - b * q)
  {
    var d, e, f := m.r1.y, m.r1.z, m.r2.z;
    var u, v := Vector3(l, b * d + c * e, b * e + c * f), Vector3(0.0, c * d - b * e, c * e - b * f);
    TurnedLeft(m, l, b, c, u, v);
    TurnedRight(m.r0, u, v, l, b, c, d, e, f, q);
  }

  /** Turning m and then turning back. */
  lemma TurnedBack(q: Matrix, t: Matrix, m: Matrix)
    requires Times(q, q) == IDENTITY && Transpose(q) == q && t == Times(Times(q, m), q)
    ensures Conjugated(q, t) == m
  {
    TimesAssoc(q, Times(q, m), q);
    TimesAssoc(q, q, m);
    TimesIdentity(m);
    TimesAssoc(q, t, q);
    Again(m, q);
    TimesAssoc(q, Times(Times(q, m), q), q);
  }

  lemma UnitVector(x: real, y: real, l: real, b: real, c: real)
    requires l != 0.0 && l * l == x * x + y * y && b == x * (1.0 / l) && c == y * (1.0 / l)
    ensures b * l == x && c * l == y && b * b + c * c == 1.0
  {
    Reciprocal(x, l);
    Reciprocal(y, l);
    assert b * l == x && c * l == y;
    assert (b * b + c * c) * (l * l) == (b * l) * (b * l) + (c * l) * (c * l);
    assert l * l != 0.0 by { if l * l == 0.0 { NoSquare(l); } }
    Cancel(b * b + c * c, 1.0, l * l);
  }

  /** A number below EPSILON at the corner is dropped. */
  predicate Reduced(m: Matrix)
  {
    m.r0.z == 0.0 || m.r0.z >= EPSILON || -m.r0.z >= EPSILON
  }

  lemma TurnedConjugates(m: Matrix, l: real, b: real, c: real, q: real)
    requires Mirrored(m) == m && b * b + c * c == 1.0 && m.r0.y == b * l && m.r0.z == c * l
    requires q == 2.0 * b * m.r1.z + c * (m.r2.z - m.r1.y)
    ensures Orthogonal(Turn(b, c))
    ensures Conjugated(Turn(b, c), Tridiagonal(Vector3(m.r0.x, m.r1.y + c * q, m.r2.z - c * q), l, m.r1.z - b * q)) == m
  {
    TurnOrthogonal(b, c);
    TurnedTridiagonal(m, l, b, c, q);
    TurnedBack(Turn(b, c), Tridiagonal(Vector3(m.r0.x, m.r1.y + c * q, m.r2.z - c * q), l, m.r1.z - b * q), m);
  }

  /** The tridiagonal matrix in two arrays. */
  ghost function Got(afDiag: array<real>, afSubDiag: array<real>): Matrix
    requires afDiag.Length == 3 && afSubDiag.Length == 3
    reads afDiag, afSubDiag
  {
    Tridiagonal(Vector3(afDiag[0], afDiag[1], afDiag[2]), afSubDiag[0], afSubDiag[1])
  }

  method PutTurned(elt: array2<real>, afDiag: array<real>, afSubDiag: array<real>, fLength: real, fB: real, fC: real, fQ: real)
    requires IsMatrix(elt) && afDiag.Length == 3 && afSubDiag.Length == 3 && afDiag != afSubDiag
    requires afDiag[0] == elt[0, 0]
    modifies elt, afDiag, afSubDiag
    ensures Get(elt) == Turn(fB, fC) && afSubDiag[2] == old(afSubDiag[2])
    ensures var m := old(Get(elt));
            Got(afDiag, afSubDiag) == Tridiagonal(Vector3(m.r0.x, m.r1.y + fC * fQ, m.r2.z - fC * fQ), fLength, m.r1.z - fB * fQ)
  {
    afDiag[1] := elt[1, 1] + fC * fQ;
    afDiag[2] := elt[2, 2] - fC * fQ;
    afSubDiag[0] := fLength;
    afSubDiag[1] := elt[1, 2] - fB * fQ;
    Set(elt, Turn(fB, fC));
  }

  method TurnSubdiagonal(elt: array2<real>, afDiag: array<real>, afSubDiag: array<real>, fLength: real)
    requires IsMatrix(elt) && afDiag.Length == 3 && afSubDiag.Length == 3 && afDiag != afSubDiag
    requires fLength != 0.0 && fLength * fLength == elt[0, 1] * elt[0, 1] + elt[0, 2] * elt[0, 2]
    requires afDiag[0] == elt[0, 0]
    modifies elt, afDiag, afSubDiag
    ensures Orthogonal(Get(elt)) && afSubDiag[2] == old(afSubDiag[2])
    ensures Conjugated(Get(elt), Got(afDiag, afSubDiag)) == Mirrored(old(Get(elt)))
  {
    ghost var m := Get(elt);
    var fInvLength := 1.0 / fLength;
    var fB, fC := elt[0, 1] * fInvLength, elt[0, 2] * fInvLength;
    var fQ := 2.0 * fB * elt[1, 2] + fC * (elt[2, 2] - elt[1, 1]);
    PutTurned(elt, afDiag, afSubDiag, fLength, fB, fC, fQ);
    TurnedExactly(m, fLength, fB, fC, fQ, Get(elt), Got(afDiag, afSubDiag));
  }

  lemma TurnedExactly(m: Matrix, l: real, b: real, c: real, s: real, q: Matrix, t: Matrix)
    requires l != 0.0 && l * l == m.r0.y * m.r0.y + m.r0.z * m.r0.z
    requires b == m.r0.y * (1.0 / l) && c == m.r0.z * (1.0 / l) && s == 2.0 * b * m.r1.z + c * (m.r2.z - m.r1.y)
    requires q == Turn(b, c) && t == Tridiagonal(Vector3(m.r0.x, m.r1.y + c * s, m.r2.z - c * s), l, m.r1.z - b * s)
    ensures Orthogonal(q) && Conjugated(q, t) == Mirrored(m)
  {
    var n := Mirrored(m);
    UnitVector(m.r0.y, m.r0.z, l, b, c);
    TurnedConjugates(n, l, b, c, s);
    assert Conjugated(Turn(b, c), t) == n;
  }

  method KeepSubdiagonal(elt: array2<real>, afDiag: array<real>, afSubDiag: array<real>)
    requires IsMatrix(elt) && afDiag.Length == 3 && afSubDiag.Length == 3 && afDiag != afSubDiag
    requires afDiag[0] == elt[0, 0]
    modifies elt, afDiag, afSubDiag
    ensures Get(elt) == IDENTITY && afSubDiag[2] == old(afSubDiag[2])
    ensures var m := old(Get(elt)); Got(afDiag, afSubDiag) == Tridiagonal(Vector3(m.r0.x, m.r1.y, m.r2.z), m.r0.y, m.r1.z)
  {
    afDiag[1], afDiag[2] := elt[1, 1], elt[2, 2];
    afSubDiag[0], afSubDiag[1] := elt[0, 1], elt[1, 2];
    Set(elt, IDENTITY);
  }

  lemma IdentityOrthogonal()
    ensures Transpose(IDENTITY) == IDENTITY && Orthogonal(IDENTITY)
  {
    assert Transpose(IDENTITY) == IDENTITY;
    TimesIdentity(IDENTITY);
  }

  lemma IdentityConjugates(t: Matrix)
    ensures Conjugated(IDENTITY, t) == t
  {
    IdentityOrthogonal();
    TimesIdentity(t);
  }

  lemma KeptCorner(m: Matrix, t: Matrix)
    requires t == Tridiagonal(Vector3(m.r0.x, m.r1.y, m.r2.z), m.r0.y, m.r1.z)
    ensures t == Mirrored(m) <==> m.r0.z == 0.0
  {
    assert t.r0.z == 0.0 && Mirrored(m).r0.z == m.r0.z;
  }

  lemma KeptConjugates(q: Matrix, m: Matrix, t: Matrix)
    requires q == IDENTITY
    requires t == Tridiagonal(Vector3(m.r0.x, m.r1.y, m.r2.z), m.r0.y, m.r1.z)
    ensures Conjugated(q, t) == Mirrored(m) <==> m.r0.z == 0.0
  {
    IdentityConjugates(t);
    KeptCorner(m, t);
  }

  method DropCorner(elt: array2<real>, afDiag: array<real>, afSubDiag: array<real>)
    requires IsMatrix(elt) && afDiag.Length == 3 && afSubDiag.Length == 3 && afDiag != afSubDiag
    requires afDiag[0] == elt[0, 0]
    modifies elt, afDiag, afSubDiag
    ensures Get(elt) == IDENTITY && afSubDiag[2] == old(afSubDiag[2])
    ensures Conjugated(Get(elt), Got(afDiag, afSubDiag)) == Mirrored(old(Get(elt))) <==> old(elt[0, 2]) == 0.0
  {
    ghost var m := Get(elt);
    KeepSubdiagonal(elt, afDiag, afSubDiag);
    KeptConjugates(Get(elt), m, Got(afDiag, afSubDiag));
  }

  method TurnCorner(elt: array2<real>, afDiag: array<real>, afSubDiag: array<real>, sqrt: real -> real)
    requires IsMatrix(elt) && afDiag.Length == 3 && afSubDiag.Length == 3 && afDiag != afSubDiag && TakesRoots(sqrt)
    requires afDiag[0] == elt[0, 0] && elt[0, 2] != 0.0
    modifies elt, afDiag, afSubDiag
    ensures Orthogonal(Get(elt)) && afSubDiag[2] == old(afSubDiag[2])
    ensures Conjugated(Get(elt), Got(afDiag, afSubDiag)) == Mirrored(old(Get(elt)))
  {
    var fLength := Length(elt[0, 1], elt[0, 2], 0.0, sqrt);
    TurnSubdiagonal(elt, afDiag, afSubDiag, fLength);
  }

  /** T, in two arrays, is Q T QT with Q in elt. */
  ghost predicate IsReduction(m: Matrix, elt: array2<real>, afDiag: array<real>, afSubDiag: array<real>)
    requires IsMatrix(elt) && afDiag.Length == 3 && afSubDiag.Length == 3
    reads elt, afDiag, afSubDiag
  {
    Conjugated(Get(elt), Got(afDiag, afSubDiag)) == Mirrored(m)
  }

  /** Householder reduction T = QT M Q of a symmetric matrix, Q in place of M. It is exact unless the
      corner of M is taken for zero without being zero. */
  method Tridiagonalize(elt: array2<real>, afDiag: array<real>, afSubDiag: array<real>, sqrt: real -> real)
    requires IsMatrix(elt) && afDiag.Length == 3 && afSubDiag.Length == 3 && afDiag != afSubDiag && TakesRoots(sqrt)
    modifies elt, afDiag, afSubDiag
    ensures Orthogonal(Get(elt)) && afSubDiag[2] == 0.0
    ensures IsReduction(old(Get(elt)), elt, afDiag, afSubDiag) <==> Reduced(old(Get(elt)))
  {
    ghost var m := Get(elt);
    afDiag[0] := elt[0, 0];
    afSubDiag[2] := 0.0;
    assert Get(elt) == m;
    if elt[0, 2] >= EPSILON || -elt[0, 2] >= EPSILON {
      TurnCorner(elt, afDiag, afSubDiag, sqrt);
      assert IsReduction(m, elt, afDiag, afSubDiag);
    } else {
      DropCorner(elt, afDiag, afSubDiag);
      assert IsReduction(m, elt, afDiag, afSubDiag) <==> m.r0.z == 0.0;
      IdentityOrthogonal();
    }
  }

  /** A corner of half an EPSILON is lost. */
  method LosesCorner(sqrt: real -> real) returns (elt: array2<real>, afDiag: array<real>, afSubDiag: array<real>)
    requires TakesRoots(sqrt)
    ensures IsMatrix(elt) && afDiag.Length == 3 && afSubDiag.Length == 3
    ensures Conjugated(Get(elt), Got(afDiag, afSubDiag))
            != Matrix(Vector3(1.0, 0.0, 0.0000005), Vector3(0.0, 1.0, 0.0), Vector3(0.0000005, 0.0, 1.0))
  {
    var m := Matrix(Vector3(1.0, 0.0, 0.0000005), Vector3(0.0, 1.0, 0.0), Vector3(0.0000005, 0.0, 1.0));
    elt, afDiag, afSubDiag := new real[3, 3], new real[3], new real[3];
    Set(elt, m);
    assert Mirrored(m) == m && !Reduced(m);
    Tridiagonalize(elt, afDiag, afSubDiag, sqrt);
  }
}
