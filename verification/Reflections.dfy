/** Householder reflections. */
module Reflections {
  import opened Matrices

  /** I + t v vT */
  function Reflection(v: Vector3, t: real): Matrix
  {
    Matrix(Vector3(1.0 + t * v.x * v.x, t * v.x * v.y, t * v.x * v.z),
           Vector3(t * v.y * v.x, 1.0 + t * v.y * v.y, t * v.y * v.z),
           Vector3(t * v.z * v.x, t * v.z * v.y, 1.0 + t * v.z * v.z))
  }

  function PlusScaled(a: Vector3, s: real, b: Vector3): Vector3
  {
    Vector3(a.x + s * b.x, a.y + s * b.y, a.z + s * b.z)
  }

  /** m + v wT */
  function PlusOuter(m: Matrix, v: Vector3, w: Vector3): Matrix
  {
    Matrix(PlusScaled(m.r0, v.x, w), PlusScaled(m.r1, v.y, w), PlusScaled(m.r2, v.z, w))
  }

  function Scale(t: real, a: Vector3): Vector3
  {
    Vector3(t * a.x, t * a.y, t * a.z)
  }

  lemma PlusScaledDot(a: Vector3, s: real, b: Vector3, c: Vector3)
    ensures Dot(PlusScaled(a, s, b), c) == Dot(a, c) + s * Dot(b, c)
  {
    Distribute(s, 0.0, b.x * c.x, b.y * c.y, b.z * c.z);
    assert (s * b.x) * c.x == s * (b.x * c.x) && (s * b.y) * c.y == s * (b.y * c.y) && (s * b.z) * c.z == s * (b.z * c.z);
  }

  lemma ReflectionRows(v: Vector3, t: real)
    ensures var h := Reflection(v, t);
            h.r0 == PlusScaled(IDENTITY.r0, t * v.x, v) && h.r1 == PlusScaled(IDENTITY.r1, t * v.y, v)
            && h.r2 == PlusScaled(IDENTITY.r2, t * v.z, v)
  {
  }

  lemma LeftEntry(e: Vector3, t: real, p: real, v: Vector3, c: Vector3)
    ensures Dot(PlusScaled(e, t * p, v), c) == Dot(e, c) + p * (t * Dot(v, c))
  {
    PlusScaledDot(e, t * p, v, c);
    var d := Dot(v, c);
    assert (t * p) * d == p * (t * d);
  }

  lemma LeftRow(e: Vector3, t: real, p: real, v: Vector3, m: Matrix)
    ensures RowTimes(PlusScaled(e, t * p, v), m) == PlusScaled(RowTimes(e, m), p, Scale(t, RowTimes(v, m)))
  {
    var c := Transpose(m);
    LeftEntry(e, t, p, v, c.r0);
    LeftEntry(e, t, p, v, c.r1);
    LeftEntry(e, t, p, v, c.r2);
  }

  lemma LeftReflection(v: Vector3, t: real, m: Matrix)
    ensures Times(Reflection(v, t), m) == PlusOuter(m, v, Scale(t, RowTimes(v, m)))
  {
    ReflectionRows(v, t);
    LeftRow(IDENTITY.r0, t, v.x, v, m);
    LeftRow(IDENTITY.r1, t, v.y, v, m);
    LeftRow(IDENTITY.r2, t, v.z, v, m);
    TimesIdentity(m);
  }

  lemma ReflectionSymmetric(v: Vector3, t: real)
    ensures Transpose(Reflection(v, t)) == Reflection(v, t)
  {
  }

  /** Reflecting from the right is reflecting the transpose. */
  lemma RightReflection(v: Vector3, t: real, m: Matrix)
    ensures Times(m, Reflection(v, t)) == Transpose(PlusOuter(Transpose(m), v, Scale(t, RowTimes(v, Transpose(m)))))
  {
    LeftReflection(v, t, Transpose(m));
    TransposeTimes(Reflection(v, t), Transpose(m));
    ReflectionSymmetric(v, t);
  }

  lemma EntryCancels(t: real, a: real, b: real)
    ensures t * a * b + a * (t * (-1.0 * b)) == 0.0
  {
    assert -1.0 * b == -b && t * -b == -(t * b) && a * -(t * b) == -(a * (t * b));
    assert t * a * b == a * (t * b);
  }

  lemma OuterCancels(v: Vector3, t: real)
    ensures PlusOuter(Reflection(v, t), v, Scale(t, Scale(-1.0, v))) == IDENTITY
  {
    EntryCancels(t, v.x, v.x); EntryCancels(t, v.x, v.y); EntryCancels(t, v.x, v.z);
    EntryCancels(t, v.y, v.x); EntryCancels(t, v.y, v.y); EntryCancels(t, v.y, v.z);
    EntryCancels(t, v.z, v.x); EntryCancels(t, v.z, v.y); EntryCancels(t, v.z, v.z);
  }

  /** A reflection undoes itself. */
  lemma ReflectionOrthogonal(v: Vector3, t: real)
    requires t * Dot(v, v) == -2.0
    ensures Orthogonal(Reflection(v, t)) && Times(Reflection(v, t), Reflection(v, t)) == IDENTITY
  {
    ReflectionSymmetric(v, t);
    RowOfReflection(v, t);
    LeftReflection(v, t, Reflection(v, t));
    OuterCancels(v, t);
  }

  lemma RowOfReflection(v: Vector3, t: real)
    requires t * Dot(v, v) == -2.0
    ensures RowTimes(v, Reflection(v, t)) == Scale(-1.0, v)
  {
    var d := Dot(v, v);
    VectorEntry(v, t, v.x);
    VectorEntry(v, t, v.y);
    VectorEntry(v, t, v.z);
    ReflectionSymmetric(v, t);
    ReflectionRows(v, t);
    PlusScaledDot(IDENTITY.r0, t * v.x, v, v);
    PlusScaledDot(IDENTITY.r1, t * v.y, v, v);
    PlusScaledDot(IDENTITY.r2, t * v.z, v, v);
    DotSymmetric(v, Reflection(v, t).r0);
    DotSymmetric(v, Reflection(v, t).r1);
    DotSymmetric(v, Reflection(v, t).r2);
  }

  lemma DotSymmetric(a: Vector3, b: Vector3)
    ensures Dot(a, b) == Dot(b, a)
  {
  }

  lemma VectorEntry(v: Vector3, t: real, p: real)
    requires t * Dot(v, v) == -2.0
    ensures p + (t * p) * Dot(v, v) == -1.0 * p
  {
    var d := Dot(v, v);
    assert (t * p) * d == (t * d) * p;
  }

  /** The lengths and signs behind the reflection that takes (a, b, c) to the first axis. */
  lemma Householder(a: real, b: real, c: real, l: real, s: real)
    requires l > 0.0 && l * l == a * a + b * b + c * c && s == if a > 0.0 then 1.0 else -1.0
    ensures var t1 := a + s * l;
            t1 != 0.0 &&
            var v1, v2 := b / t1, c / t1;
            var n := 1.0 + v1 * v1 + v2 * v2;
            n > 0.0 &&
            var t := -2.0 / n;
            t * n == -2.0 && t * (a + b * v1 + c * v2) == -t1
            && b + v1 * -t1 == 0.0 && c + v2 * -t1 == 0.0
  {
    var t1 := a + s * l;
    assert s * t1 == s * a + l > 0.0;
    var v1, v2 := b / t1, c / t1;
    assert v1 * t1 == b && v2 * t1 == c;
    var n, d := 1.0 + v1 * v1 + v2 * v2, a + b * v1 + c * v2;
    assert v1 * v1 >= 0.0 && v2 * v2 >= 0.0;
    LengthAlong(a, b, c, l, s, t1, v1, v2);
    var t := -2.0 / n;
    assert t * n == -2.0;
    assert n * t1 == 2.0 * d;
    assert t * (n * t1) == (t * n) * t1;
  }

  lemma LengthAlong(a: real, b: real, c: real, l: real, s: real, t1: real, v1: real, v2: real)
    requires l * l == a * a + b * b + c * c && s * s == 1.0 && t1 == a + s * l && t1 != 0.0
    requires v1 * t1 == b && v2 * t1 == c
    ensures (1.0 + v1 * v1 + v2 * v2) * t1 == 2.0 * (s * l) && a + b * v1 + c * v2 == s * l
  {
    var n, d := 1.0 + v1 * v1 + v2 * v2, a + b * v1 + c * v2;
    var k := s * l;
    assert k * k == (s * s) * (l * l) == l * l;
    assert t1 * t1 == a * a + 2.0 * a * k + k * k;
    assert (v1 * v1) * t1 == b * v1 && (v2 * v2) * t1 == c * v2;
    assert (b * v1) * t1 == b * b && (c * v2) * t1 == c * c;
    assert d * t1 == a * t1 + b * b + c * c == a * a + a * k + k * k - a * a == k * t1;
    Cancel(d, k, t1);
    assert n * t1 == t1 + b * v1 + c * v2;
  }

  lemma Cancel(x: real, y: real, z: real)
    requires x * z == y * z && z != 0.0
    ensures x == y
  {
    assert (x - y) * z == 0.0;
  }
}
