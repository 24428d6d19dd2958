/** 3 by 3 matrices of reals. */
module Matrices {

  datatype Vector3 = Vector3(x: real, y: real, z: real)

  datatype Matrix = Matrix(r0: Vector3, r1: Vector3, r2: Vector3)

  function Dot(a: Vector3, b: Vector3): real
  {
    a.x * b.x + a.y * b.y + a.z * b.z
  }

  function Transpose(m: Matrix): Matrix
  {
    Matrix(Vector3(m.r0.x, m.r1.x, m.r2.x), Vector3(m.r0.y, m.r1.y, m.r2.y), Vector3(m.r0.z, m.r1.z, m.r2.z))
  }

  /** A row vector times a matrix. */
  function RowTimes(a: Vector3, m: Matrix): Vector3
  {
    var t := Transpose(m);
    Vector3(Dot(a, t.r0), Dot(a, t.r1), Dot(a, t.r2))
  }

  /** operator* */
  function Times(a: Matrix, b: Matrix): Matrix
  {
    Matrix(RowTimes(a.r0, b), RowTimes(a.r1, b), RowTimes(a.r2, b))
  }

  const IDENTITY := Matrix(Vector3(1.0, 0.0, 0.0), Vector3(0.0, 1.0, 0.0), Vector3(0.0, 0.0, 1.0))

  predicate Orthogonal(m: Matrix)
  {
    Times(m, Transpose(m)) == IDENTITY && Times(Transpose(m), m) == IDENTITY
  }

  lemma Distribute(a: real, b: real, x: real, y: real, z: real)
    ensures a * (x + y + z) == a * x + a * y + a * z
    ensures (x + y + z) * b == x * b + y * b + z * b
  {
  }

  lemma DotTerm(a: real, x: real, y: real, z: real, b: Vector3)
    ensures a * (x * b.x + y * b.y + z * b.z) == (a * x) * b.x + (a * y) * b.y + (a * z) * b.z
  {
    Distribute(a, 0.0, x * b.x, y * b.y, z * b.z);
  }

  lemma DotAssoc(a: Vector3, m: Matrix, b: Vector3)
    ensures Dot(RowTimes(a, m), b) == Dot(a, Vector3(Dot(m.r0, b), Dot(m.r1, b), Dot(m.r2, b)))
  {
    DotTerm(a.x, m.r0.x, m.r0.y, m.r0.z, b);
    DotTerm(a.y, m.r1.x, m.r1.y, m.r1.z, b);
    DotTerm(a.z, m.r2.x, m.r2.y, m.r2.z, b);
    Distribute(0.0, b.x, a.x * m.r0.x, a.y * m.r1.x, a.z * m.r2.x);
    Distribute(0.0, b.y, a.x * m.r0.y, a.y * m.r1.y, a.z * m.r2.y);
    Distribute(0.0, b.z, a.x * m.r0.z, a.y * m.r1.z, a.z * m.r2.z);
  }

  lemma RowAssoc(a: Vector3, m: Matrix, n: Matrix)
    ensures RowTimes(RowTimes(a, m), n) == RowTimes(a, Times(m, n))
  {
    var t := Transpose(n);
    DotAssoc(a, m, t.r0);
    DotAssoc(a, m, t.r1);
    DotAssoc(a, m, t.r2);
  }

  lemma TimesAssoc(a: Matrix, b: Matrix, c: Matrix)
    ensures Times(Times(a, b), c) == Times(a, Times(b, c))
  {
    RowAssoc(a.r0, b, c);
    RowAssoc(a.r1, b, c);
    RowAssoc(a.r2, b, c);
  }

  lemma TimesIdentity(a: Matrix)
    ensures Times(a, IDENTITY) == a && Times(IDENTITY, a) == a
  {
  }

  lemma TransposeTimes(a: Matrix, b: Matrix)
    ensures Transpose(Times(a, b)) == Times(Transpose(b), Transpose(a))
  {
  }

  /** Products of orthogonal matrices are orthogonal. */
  lemma OrthogonalTimes(a: Matrix, b: Matrix)
    requires Orthogonal(a) && Orthogonal(b)
    ensures Orthogonal(Times(a, b))
  {
    var p, at, bt := Times(a, b), Transpose(a), Transpose(b);
    TransposeTimes(a, b);
    TimesAssoc(a, b, Times(bt, at));
    TimesAssoc(b, bt, at);
    TimesIdentity(at);
    TimesAssoc(bt, at, p);
    TimesAssoc(at, a, b);
    TimesIdentity(b);
  }
}
