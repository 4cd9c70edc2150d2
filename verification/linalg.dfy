/** Small fixed-size vectors and matrices over exact reals.

    Matrices are stored by rows. three.js keeps a `Matrix3` as a flat,
    column-major `elements` array (`elements[col * 3 + row]`); `Elements` and
    `FromElements` convert between the two layouts so that code reading
    `elements[...]` can be modelled index for index. */
module LinAlg {

  datatype Vec2 = Vec2(x: real, y: real)
  datatype Vec3 = Vec3(x: real, y: real, z: real)
  datatype Vec4 = Vec4(x: real, y: real, z: real, w: real)

  datatype Mat3 = Mat3(r0: Vec3, r1: Vec3, r2: Vec3)
  datatype Mat4 = Mat4(r0: Vec4, r1: Vec4, r2: Vec4, r3: Vec4)

  /** The `elements` array of a three.js `Matrix3`: nine entries, column-major. */
  type Elements3 = e: seq<real> | |e| == 9 witness [0.0, 0.0, 0.0, 0.0, 0.0, 0.0, 0.0, 0.0, 0.0]

  // ---------------------------------------------------------------------------
  // Vectors

  function Dot3(a: Vec3, b: Vec3): real {
    a.x * b.x + a.y * b.y + a.z * b.z
  }

  function Neg3(a: Vec3): Vec3 {
    Vec3(-a.x, -a.y, -a.z)
  }

  function Dot4(a: Vec4, b: Vec4): real {
    a.x * b.x + a.y * b.y + a.z * b.z + a.w * b.w
  }

  function Scale4(k: real, a: Vec4): Vec4 {
    Vec4(k * a.x, k * a.y, k * a.z, k * a.w)
  }

  function Add4(a: Vec4, b: Vec4): Vec4 {
    Vec4(a.x + b.x, a.y + b.y, a.z + b.z, a.w + b.w)
  }

  // ---------------------------------------------------------------------------
  // 3x3 matrices

  const Identity3: Mat3 := Mat3(Vec3(1.0, 0.0, 0.0), Vec3(0.0, 1.0, 0.0), Vec3(0.0, 0.0, 1.0))

  function Row3(m: Mat3, row: nat): Vec3
    requires row < 3
  {
    if row == 0 then m.r0 else if row == 1 then m.r1 else m.r2
  }

  function Get3(v: Vec3, i: nat): real
    requires i < 3
  {
    if i == 0 then v.x else if i == 1 then v.y else v.z
  }

  /** Entry in row `row`, column `col`. */
  function At3(m: Mat3, row: nat, col: nat): real
    requires row < 3 && col < 3
  {
    Get3(Row3(m, row), col)
  }

  function Transpose3(m: Mat3): Mat3 {
    Mat3(Vec3(m.r0.x, m.r1.x, m.r2.x),
         Vec3(m.r0.y, m.r1.y, m.r2.y),
         Vec3(m.r0.z, m.r1.z, m.r2.z))
  }

  function Apply3(m: Mat3, v: Vec3): Vec3 {
    Vec3(Dot3(m.r0, v), Dot3(m.r1, v), Dot3(m.r2, v))
  }

  function RowTimes3(v: Vec3, b: Mat3): Vec3 {
    Vec3(v.x * b.r0.x + v.y * b.r1.x + v.z * b.r2.x,
         v.x * b.r0.y + v.y * b.r1.y + v.z * b.r2.y,
         v.x * b.r0.z + v.y * b.r1.z + v.z * b.r2.z)
  }

  /** The matrix product `a * b`. */
  function Mul3(a: Mat3, b: Mat3): Mat3 {
    Mat3(RowTimes3(a.r0, b), RowTimes3(a.r1, b), RowTimes3(a.r2, b))
  }

  function Add3(a: Vec3, b: Vec3): Vec3 {
    Vec3(a.x + b.x, a.y + b.y, a.z + b.z)
  }

  lemma RowTimesDot3(a: Vec3, b: Mat3, p: Vec3)
    ensures Dot3(RowTimes3(a, b), p) == Dot3(a, Apply3(b, p))
  {
  }

  /** Applying a product is applying its factors in turn. */
  lemma ApplyMul3(a: Mat3, b: Mat3, p: Vec3)
    ensures Apply3(Mul3(a, b), p) == Apply3(a, Apply3(b, p))
  {
    RowTimesDot3(a.r0, b, p);
    RowTimesDot3(a.r1, b, p);
    RowTimesDot3(a.r2, b, p);
  }

  lemma Apply3Identity(p: Vec3)
    ensures Apply3(Identity3, p) == p
  {
  }

  lemma Apply3Neg(a: Mat3, p: Vec3)
    ensures Apply3(a, Neg3(p)) == Neg3(Apply3(a, p))
  {
  }

  /** The column-major `elements` array of `m`. */
  function Elements(m: Mat3): (e: Elements3)
    ensures forall row: nat, col: nat {:trigger At3(m, row, col)} :: row < 3 && col < 3 ==> e[col * 3 + row] == At3(m, row, col)
  {
    [m.r0.x, m.r1.x, m.r2.x,
     m.r0.y, m.r1.y, m.r2.y,
     m.r0.z, m.r1.z, m.r2.z]
  }

  /** The matrix whose column-major `elements` array is `e`. */
  function FromElements(e: Elements3): (m: Mat3)
    ensures forall row: nat, col: nat {:trigger At3(m, row, col)} :: row < 3 && col < 3 ==> At3(m, row, col) == e[col * 3 + row]
  {
    Mat3(Vec3(e[0], e[3], e[6]),
         Vec3(e[1], e[4], e[7]),
         Vec3(e[2], e[5], e[8]))
  }

  lemma ElementsRoundTrip(m: Mat3, e: Elements3)
    ensures FromElements(Elements(m)) == m
    ensures Elements(FromElements(e)) == e
  {
  }

  // ---------------------------------------------------------------------------
  // 4x4 matrices

  const Identity4: Mat4 :=
    Mat4(Vec4(1.0, 0.0, 0.0, 0.0), Vec4(0.0, 1.0, 0.0, 0.0),
         Vec4(0.0, 0.0, 1.0, 0.0), Vec4(0.0, 0.0, 0.0, 1.0))

  function Apply4(m: Mat4, v: Vec4): Vec4 {
    Vec4(Dot4(m.r0, v), Dot4(m.r1, v), Dot4(m.r2, v), Dot4(m.r3, v))
  }

  /** Row vector `v` times `b`: the combination of `b`'s rows weighted by `v`. */
  function RowTimes4(v: Vec4, b: Mat4): Vec4 {
    Vec4(v.x * b.r0.x + v.y * b.r1.x + v.z * b.r2.x + v.w * b.r3.x,
         v.x * b.r0.y + v.y * b.r1.y + v.z * b.r2.y + v.w * b.r3.y,
         v.x * b.r0.z + v.y * b.r1.z + v.z * b.r2.z + v.w * b.r3.z,
         v.x * b.r0.w + v.y * b.r1.w + v.z * b.r2.w + v.w * b.r3.w)
  }

  /** The matrix product `a * b` (three.js `a.multiply(b)`). */
  function Mul4(a: Mat4, b: Mat4): Mat4 {
    Mat4(RowTimes4(a.r0, b), RowTimes4(a.r1, b), RowTimes4(a.r2, b), RowTimes4(a.r3, b))
  }

  lemma DotAdd(u: Vec4, v: Vec4, p: Vec4)
    ensures Dot4(Add4(u, v), p) == Dot4(u, p) + Dot4(v, p)
  {
  }

  lemma DotScale(k: real, v: Vec4, p: Vec4)
    ensures Dot4(Scale4(k, v), p) == k * Dot4(v, p)
  {
  }

  /** A row times a matrix is the combination of the matrix rows it weights. */
  lemma RowTimesCombination(a: Vec4, b: Mat4)
    ensures RowTimes4(a, b) == Add4(Add4(Scale4(a.x, b.r0), Scale4(a.y, b.r1)), Add4(Scale4(a.z, b.r2), Scale4(a.w, b.r3)))
  {
  }

  lemma RowTimesDot(a: Vec4, b: Mat4, p: Vec4)
    ensures Dot4(RowTimes4(a, b), p) == Dot4(a, Apply4(b, p))
  {
    RowTimesCombination(a, b);
    var s0 := Scale4(a.x, b.r0);
    var s1 := Scale4(a.y, b.r1);
    var s2 := Scale4(a.z, b.r2);
    var s3 := Scale4(a.w, b.r3);
    DotAdd(Add4(s0, s1), Add4(s2, s3), p);
    DotAdd(s0, s1, p);
    DotAdd(s2, s3, p);
    DotScale(a.x, b.r0, p);
    DotScale(a.y, b.r1, p);
    DotScale(a.z, b.r2, p);
    DotScale(a.w, b.r3, p);
  }

  /** Applying a product is applying its factors in turn. */
  lemma ApplyMul4(a: Mat4, b: Mat4, p: Vec4)
    ensures Apply4(Mul4(a, b), p) == Apply4(a, Apply4(b, p))
  {
    RowTimesDot(a.r0, b, p);
    RowTimesDot(a.r1, b, p);
    RowTimesDot(a.r2, b, p);
    RowTimesDot(a.r3, b, p);
  }

  function Col4(m: Mat4, j: nat): Vec4
    requires j < 4
  {
    if j == 0 then Vec4(m.r0.x, m.r1.x, m.r2.x, m.r3.x)
    else if j == 1 then Vec4(m.r0.y, m.r1.y, m.r2.y, m.r3.y)
    else if j == 2 then Vec4(m.r0.z, m.r1.z, m.r2.z, m.r3.z)
    else Vec4(m.r0.w, m.r1.w, m.r2.w, m.r3.w)
  }

  function Get4(v: Vec4, j: nat): real
    requires j < 4
  {
    if j == 0 then v.x else if j == 1 then v.y else if j == 2 then v.z else v.w
  }

  lemma RowTimesEntry(v: Vec4, b: Mat4, j: nat)
    requires j < 4
    ensures Get4(RowTimes4(v, b), j) == Dot4(v, Col4(b, j))
  {
  }

  lemma ColMul(b: Mat4, c: Mat4, j: nat)
    requires j < 4
    ensures Col4(Mul4(b, c), j) == Apply4(b, Col4(c, j))
  {
    RowTimesEntry(b.r0, c, j);
    RowTimesEntry(b.r1, c, j);
    RowTimesEntry(b.r2, c, j);
    RowTimesEntry(b.r3, c, j);
  }

  lemma RowTimesAssocEntry(v: Vec4, b: Mat4, c: Mat4, j: nat)
    requires j < 4
    ensures Get4(RowTimes4(RowTimes4(v, b), c), j) == Get4(RowTimes4(v, Mul4(b, c)), j)
  {
    RowTimesEntry(RowTimes4(v, b), c, j);
    RowTimesDot(v, b, Col4(c, j));
    ColMul(b, c, j);
    RowTimesEntry(v, Mul4(b, c), j);
  }

  lemma RowTimesAssoc(v: Vec4, b: Mat4, c: Mat4)
    ensures RowTimes4(RowTimes4(v, b), c) == RowTimes4(v, Mul4(b, c))
  {
    RowTimesAssocEntry(v, b, c, 0);
    RowTimesAssocEntry(v, b, c, 1);
    RowTimesAssocEntry(v, b, c, 2);
    RowTimesAssocEntry(v, b, c, 3);
  }

  lemma Mul4Assoc(a: Mat4, b: Mat4, c: Mat4)
    ensures Mul4(Mul4(a, b), c) == Mul4(a, Mul4(b, c))
  {
    RowTimesAssoc(a.r0, b, c);
    RowTimesAssoc(a.r1, b, c);
    RowTimesAssoc(a.r2, b, c);
    RowTimesAssoc(a.r3, b, c);
  }

  const Zero4: Vec4 := Vec4(0.0, 0.0, 0.0, 0.0)

  lemma ScaleUnit(a: Vec4)
    ensures Scale4(1.0, a) == a
    ensures Scale4(0.0, a) == Zero4
  {
  }

  lemma AddZero(a: Vec4)
    ensures Add4(a, Zero4) == a && Add4(Zero4, a) == a
  {
  }

  lemma RowTimesIdentity(v: Vec4)
    ensures RowTimes4(v, Identity4) == v
  {
  }

  lemma UnitRowTimes(a: Mat4)
    ensures RowTimes4(Identity4.r0, a) == a.r0
    ensures RowTimes4(Identity4.r1, a) == a.r1
    ensures RowTimes4(Identity4.r2, a) == a.r2
    ensures RowTimes4(Identity4.r3, a) == a.r3
  {
    ScaleUnit(a.r0); ScaleUnit(a.r1); ScaleUnit(a.r2); ScaleUnit(a.r3);
    AddZero(a.r0); AddZero(a.r1); AddZero(a.r2); AddZero(a.r3); AddZero(Zero4);
  }

  lemma Mul4IdentityRight(a: Mat4)
    ensures Mul4(a, Identity4) == a
  {
    RowTimesIdentity(a.r0);
    RowTimesIdentity(a.r1);
    RowTimesIdentity(a.r2);
    RowTimesIdentity(a.r3);
  }

  lemma Mul4IdentityLeft(a: Mat4)
    ensures Mul4(Identity4, a) == a
  {
    UnitRowTimes(a);
  }

  /** A left inverse and a right inverse of the same matrix coincide, so a
      two-sided inverse is unique. */
  lemma InverseUnique(m: Mat4, x: Mat4, y: Mat4)
    requires Mul4(x, m) == Identity4
    requires Mul4(m, y) == Identity4
    ensures x == y
  {
    calc {
      x;
      { Mul4IdentityRight(x); }
      Mul4(x, Identity4);
      Mul4(x, Mul4(m, y));
      { Mul4Assoc(x, m, y); }
      Mul4(Mul4(x, m), y);
      Mul4(Identity4, y);
      { Mul4IdentityLeft(y); }
      y;
    }
  }
}
