/** Vector and matrix layout helpers, scalar helpers and the pcg4d hash of
    math.hh. Floating-point values are modelled as reals, so rounding, NaN and
    signed zero are not represented. The 32-bit lanes of pcg4d are bv32, so
    their wrap-around is exact. */
module MathCore {

  datatype Vec2 = Vec2(x: real, y: real)
  datatype Vec3 = Vec3(x: real, y: real, z: real)
  datatype Vec4 = Vec4(x: real, y: real, z: real, w: real)

  /** Matrices are stored as rows, as in the source's `r[]` arrays. */
  datatype Mat2 = Mat2(r0: Vec2, r1: Vec2)
  datatype Mat3 = Mat3(r0: Vec3, r1: Vec3, r2: Vec3)
  datatype Mat4 = Mat4(r0: Vec4, r1: Vec4, r2: Vec4, r3: Vec4)

  // ---------------------------------------------------------------------
  // Component access (`pick` in the source) and matrix entries

  function Pick2(v: Vec2, i: nat): real
    requires i < 2
  {
    if i == 0 then v.x else v.y
  }

  function Pick3(v: Vec3, i: nat): real
    requires i < 3
  {
    if i == 0 then v.x else if i == 1 then v.y else v.z
  }

  function Pick4(v: Vec4, i: nat): real
    requires i < 4
  {
    if i == 0 then v.x else if i == 1 then v.y else if i == 2 then v.z else v.w
  }

  function Row2(m: Mat2, i: nat): Vec2
    requires i < 2
  {
    if i == 0 then m.r0 else m.r1
  }

  function Row3(m: Mat3, i: nat): Vec3
    requires i < 3
  {
    if i == 0 then m.r0 else if i == 1 then m.r1 else m.r2
  }

  function Row4(m: Mat4, i: nat): Vec4
    requires i < 4
  {
    if i == 0 then m.r0 else if i == 1 then m.r1 else if i == 2 then m.r2 else m.r3
  }

  /** Entry in row i, column j. */
  function At2(m: Mat2, i: nat, j: nat): real
    requires i < 2 && j < 2
  {
    Pick2(Row2(m, i), j)
  }

  function At3(m: Mat3, i: nat, j: nat): real
    requires i < 3 && j < 3
  {
    Pick3(Row3(m, i), j)
  }

  function At4(m: Mat4, i: nat, j: nat): real
    requires i < 4 && j < 4
  {
    Pick4(Row4(m, i), j)
  }

  // ---------------------------------------------------------------------
  // Transposition, expansion and extraction

  function Transpose2(a: Mat2): (r: Mat2)
    ensures forall i: nat, j: nat | i < 2 && j < 2 :: At2(r, i, j) == At2(a, j, i)
  {
    Mat2(Vec2(a.r0.x, a.r1.x), Vec2(a.r0.y, a.r1.y))
  }

  function Transpose3(a: Mat3): (r: Mat3)
    ensures forall i: nat, j: nat | i < 3 && j < 3 :: At3(r, i, j) == At3(a, j, i)
  {
    Mat3(Vec3(a.r0.x, a.r1.x, a.r2.x),
         Vec3(a.r0.y, a.r1.y, a.r2.y),
         Vec3(a.r0.z, a.r1.z, a.r2.z))
  }

  function Transpose4(a: Mat4): (r: Mat4)
    ensures forall i: nat, j: nat | i < 4 && j < 4 :: At4(r, i, j) == At4(a, j, i)
  {
    Mat4(Vec4(a.r0.x, a.r1.x, a.r2.x, a.r3.x),
         Vec4(a.r0.y, a.r1.y, a.r2.y, a.r3.y),
         Vec4(a.r0.z, a.r1.z, a.r2.z, a.r3.z),
         Vec4(a.r0.w, a.r1.w, a.r2.w, a.r3.w))
  }

  /** Two matrices are equal when all their entries are. */
  lemma Mat4Ext(a: Mat4, b: Mat4)
    requires forall i: nat, j: nat | i < 4 && j < 4 :: At4(a, i, j) == At4(b, i, j)
    ensures a == b
  {
    assert At4(a, 0, 0) == At4(b, 0, 0) && At4(a, 0, 1) == At4(b, 0, 1);
    assert At4(a, 0, 2) == At4(b, 0, 2) && At4(a, 0, 3) == At4(b, 0, 3);
    assert At4(a, 1, 0) == At4(b, 1, 0) && At4(a, 1, 1) == At4(b, 1, 1);
    assert At4(a, 1, 2) == At4(b, 1, 2) && At4(a, 1, 3) == At4(b, 1, 3);
    assert At4(a, 2, 0) == At4(b, 2, 0) && At4(a, 2, 1) == At4(b, 2, 1);
    assert At4(a, 2, 2) == At4(b, 2, 2) && At4(a, 2, 3) == At4(b, 2, 3);
    assert At4(a, 3, 0) == At4(b, 3, 0) && At4(a, 3, 1) == At4(b, 3, 1);
    assert At4(a, 3, 2) == At4(b, 3, 2) && At4(a, 3, 3) == At4(b, 3, 3);
  }

  lemma Mat3Ext(a: Mat3, b: Mat3)
    requires forall i: nat, j: nat | i < 3 && j < 3 :: At3(a, i, j) == At3(b, i, j)
    ensures a == b
  {
    assert At3(a, 0, 0) == At3(b, 0, 0) && At3(a, 0, 1) == At3(b, 0, 1) && At3(a, 0, 2) == At3(b, 0, 2);
    assert At3(a, 1, 0) == At3(b, 1, 0) && At3(a, 1, 1) == At3(b, 1, 1) && At3(a, 1, 2) == At3(b, 1, 2);
    assert At3(a, 2, 0) == At3(b, 2, 0) && At3(a, 2, 1) == At3(b, 2, 1) && At3(a, 2, 2) == At3(b, 2, 2);
  }

  lemma Mat2Ext(a: Mat2, b: Mat2)
    requires forall i: nat, j: nat | i < 2 && j < 2 :: At2(a, i, j) == At2(b, i, j)
    ensures a == b
  {
    assert At2(a, 0, 0) == At2(b, 0, 0) && At2(a, 0, 1) == At2(b, 0, 1);
    assert At2(a, 1, 0) == At2(b, 1, 0) && At2(a, 1, 1) == At2(b, 1, 1);
  }

  /** Transposition is an involution: shown from the entry-wise contract alone. */
  lemma Transpose2Involution(a: Mat2)
    ensures Transpose2(Transpose2(a)) == a
  {
    var t := Transpose2(a);
    var tt := Transpose2(t);
    forall i: nat, j: nat | i < 2 && j < 2 ensures At2(tt, i, j) == At2(a, i, j) {
      assert At2(tt, i, j) == At2(t, j, i);
    }
    Mat2Ext(tt, a);
  }

  lemma Transpose3Involution(a: Mat3)
    ensures Transpose3(Transpose3(a)) == a
  {
    var t := Transpose3(a);
    var tt := Transpose3(t);
    forall i: nat, j: nat | i < 3 && j < 3 ensures At3(tt, i, j) == At3(a, i, j) {
      assert At3(tt, i, j) == At3(t, j, i);
    }
    Mat3Ext(tt, a);
  }

  lemma Transpose4Involution(a: Mat4)
    ensures Transpose4(Transpose4(a)) == a
  {
    var t := Transpose4(a);
    var tt := Transpose4(t);
    forall i: nat, j: nat | i < 4 && j < 4 ensures At4(tt, i, j) == At4(a, i, j) {
      assert At4(tt, i, j) == At4(t, j, i);
    }
    Mat4Ext(tt, a);
  }

  /** A 3x3 matrix placed in the upper-left corner of a 4x4 matrix whose
      last row and column are those of the identity. */
  function ExpandM3M4(m: Mat3): (r: Mat4)
    ensures forall i: nat, j: nat | i < 3 && j < 3 :: At4(r, i, j) == At3(m, i, j)
    ensures forall k: nat | k < 3 :: At4(r, k, 3) == 0.0 && At4(r, 3, k) == 0.0
    ensures At4(r, 3, 3) == 1.0
  {
    Mat4(Vec4(m.r0.x, m.r0.y, m.r0.z, 0.0),
         Vec4(m.r1.x, m.r1.y, m.r1.z, 0.0),
         Vec4(m.r2.x, m.r2.y, m.r2.z, 0.0),
         Vec4(0.0, 0.0, 0.0, 1.0))
  }

  /** The upper-left 3x3 corner of a 4x4 matrix. */
  function ExtractM4M3(m: Mat4): (r: Mat3)
    ensures forall i: nat, j: nat | i < 3 && j < 3 :: At3(r, i, j) == At4(m, i, j)
  {
    Mat3(Vec3(m.r0.x, m.r0.y, m.r0.z),
         Vec3(m.r1.x, m.r1.y, m.r1.z),
         Vec3(m.r2.x, m.r2.y, m.r2.z))
  }

  /** Extracting after expanding gives back the original matrix. */
  lemma ExtractExpand(m: Mat3)
    ensures ExtractM4M3(ExpandM3M4(m)) == m
  {
    var e := ExpandM3M4(m);
    var x := ExtractM4M3(e);
    forall i: nat, j: nat | i < 3 && j < 3 ensures At3(x, i, j) == At3(m, i, j) {
      assert At3(x, i, j) == At4(e, i, j);
    }
    Mat3Ext(x, m);
  }

  // ---------------------------------------------------------------------
  // Products

  function Dot3(a: Vec3, b: Vec3): real { a.x * b.x + a.y * b.y + a.z * b.z }
  function Dot4(a: Vec4, b: Vec4): real { a.x * b.x + a.y * b.y + a.z * b.z + a.w * b.w }

  /** `mul_v4m4(b, a)`: each row of `a` dotted with `b`. */
  function MulV4M4(b: Vec4, a: Mat4): Vec4
  {
    Vec4(Dot4(a.r0, b), Dot4(a.r1, b), Dot4(a.r2, b), Dot4(a.r3, b))
  }

  function MulV3M3(b: Vec3, a: Mat3): Vec3
  {
    Vec3(Dot3(a.r0, b), Dot3(a.r1, b), Dot3(a.r2, b))
  }

  /** `mul_m4v4(b, a)` = `mul_v4m4(a, transpose4(b))`: the row vector `a`
      times the matrix `b`. */
  function MulM4V4(b: Mat4, a: Vec4): (r: Vec4)
    ensures forall j: nat | j < 4 ::
      Pick4(r, j) == a.x * At4(b, 0, j) + a.y * At4(b, 1, j) + a.z * At4(b, 2, j) + a.w * At4(b, 3, j)
  {
    MulV4M4(a, Transpose4(b))
  }

  function MulM3V3(b: Mat3, a: Vec3): (r: Vec3)
    ensures forall j: nat | j < 3 ::
      Pick3(r, j) == a.x * At3(b, 0, j) + a.y * At3(b, 1, j) + a.z * At3(b, 2, j)
  {
    MulV3M3(a, Transpose3(b))
  }

  /** `mul_m4m4(b, a)`: entry (i, j) is row i of `a` dotted with column j of `b`. */
  function MulM4M4(b: Mat4, a: Mat4): Mat4
  {
    var bt := Transpose4(b);
    Mat4(Vec4(Dot4(a.r0, bt.r0), Dot4(a.r0, bt.r1), Dot4(a.r0, bt.r2), Dot4(a.r0, bt.r3)),
         Vec4(Dot4(a.r1, bt.r0), Dot4(a.r1, bt.r1), Dot4(a.r1, bt.r2), Dot4(a.r1, bt.r3)),
         Vec4(Dot4(a.r2, bt.r0), Dot4(a.r2, bt.r1), Dot4(a.r2, bt.r2), Dot4(a.r2, bt.r3)),
         Vec4(Dot4(a.r3, bt.r0), Dot4(a.r3, bt.r1), Dot4(a.r3, bt.r2), Dot4(a.r3, bt.r3)))
  }

  // ---------------------------------------------------------------------
  // Scaling and translation

  function Scaling(s: Vec3): (r: Mat4)
    ensures At4(r, 0, 0) == s.x && At4(r, 1, 1) == s.y && At4(r, 2, 2) == s.z && At4(r, 3, 3) == 1.0
    ensures forall i: nat, j: nat | i < 4 && j < 4 && i != j :: At4(r, i, j) == 0.0
  {
    Mat4(Vec4(s.x, 0.0, 0.0, 0.0),
         Vec4(0.0, s.y, 0.0, 0.0),
         Vec4(0.0, 0.0, s.z, 0.0),
         Vec4(0.0, 0.0, 0.0, 1.0))
  }

  function Translation(o: Vec3): (r: Mat4)
    ensures forall i: nat, j: nat | i < 3 && j < 4 :: At4(r, i, j) == if i == j then 1.0 else 0.0
    ensures r.r3 == Vec4(o.x, o.y, o.z, 1.0)
  {
    Mat4(Vec4(1.0, 0.0, 0.0, 0.0),
         Vec4(0.0, 1.0, 0.0, 0.0),
         Vec4(0.0, 0.0, 1.0, 0.0),
         Vec4(o.x, o.y, o.z, 1.0))
  }

  /** Multiplying a point (w = 1) by a translation matrix moves it by the offset,
      and a direction (w = 0) is left unchanged. */
  lemma TranslationMovesPoints(o: Vec3, p: Vec4)
    ensures p.w == 1.0 ==> MulM4V4(Translation(o), p) == Vec4(p.x + o.x, p.y + o.y, p.z + o.z, 1.0)
    ensures p.w == 0.0 ==> MulM4V4(Translation(o), p) == p
  {
    var t := Translation(o);
    var r := MulM4V4(t, p);
    assert Pick4(r, 0) == p.x * At4(t, 0, 0) + p.y * At4(t, 1, 0) + p.z * At4(t, 2, 0) + p.w * At4(t, 3, 0);
    assert Pick4(r, 1) == p.x * At4(t, 0, 1) + p.y * At4(t, 1, 1) + p.z * At4(t, 2, 1) + p.w * At4(t, 3, 1);
    assert Pick4(r, 2) == p.x * At4(t, 0, 2) + p.y * At4(t, 1, 2) + p.z * At4(t, 2, 2) + p.w * At4(t, 3, 2);
    assert Pick4(r, 3) == p.x * At4(t, 0, 3) + p.y * At4(t, 1, 3) + p.z * At4(t, 2, 3) + p.w * At4(t, 3, 3);
  }

  /** Multiplying by a scaling matrix scales each coordinate and keeps w. */
  lemma ScalingScales(s: Vec3, p: Vec4)
    ensures MulM4V4(Scaling(s), p) == Vec4(p.x * s.x, p.y * s.y, p.z * s.z, p.w)
  {
    var m := Scaling(s);
    var r := MulM4V4(m, p);
    assert Pick4(r, 0) == p.x * At4(m, 0, 0) + p.y * At4(m, 1, 0) + p.z * At4(m, 2, 0) + p.w * At4(m, 3, 0);
    assert Pick4(r, 1) == p.x * At4(m, 0, 1) + p.y * At4(m, 1, 1) + p.z * At4(m, 2, 1) + p.w * At4(m, 3, 1);
    assert Pick4(r, 2) == p.x * At4(m, 0, 2) + p.y * At4(m, 1, 2) + p.z * At4(m, 2, 2) + p.w * At4(m, 3, 2);
    assert Pick4(r, 3) == p.x * At4(m, 0, 3) + p.y * At4(m, 1, 3) + p.z * At4(m, 2, 3) + p.w * At4(m, 3, 3);
  }

  // ---------------------------------------------------------------------
  // Scalar helpers

  function Abs(x: real): real { if x < 0.0 then -x else x }

  /** `sign`: over the reals the source's signed zero is the single zero. */
  function Sign(x: real): (r: real)
    ensures r == -1.0 || r == 0.0 || r == 1.0
    ensures r * Abs(x) == x
    ensures (r > 0.0 <==> x > 0.0) && (r < 0.0 <==> x < 0.0)
  {
    if x < 0.0 then -1.0 else if x > 0.0 then 1.0 else 0.0
  }

  function Min(a: real, b: real): real { if b < a then b else a }
  function Max(a: real, b: real): real { if a < b then b else a }

  /** `clamp(v, lo, hi)` = fmin(fmax(v, lo), hi). */
  function Clamp(v: real, lo: real, hi: real): (r: real)
    ensures lo <= hi ==> lo <= r <= hi
    ensures lo <= v <= hi ==> r == v
    ensures r <= hi
  {
    Min(Max(v, lo), hi)
  }

  /** Clamping twice is clamping once. */
  lemma ClampIdempotent(v: real, lo: real, hi: real)
    requires lo <= hi
    ensures Clamp(Clamp(v, lo, hi), lo, hi) == Clamp(v, lo, hi)
  {
  }

  /** `mix(a, b, t)` = a * (1 - t) + b * t: linear interpolation. */
  function Mix(a: real, b: real, t: real): (r: real)
    ensures t == 0.0 ==> r == a
    ensures t == 1.0 ==> r == b
  {
    a * (1.0 - t) + b * t
  }

  /** For t in [0, 1], `mix` stays between its two end points. */
  lemma MixBetween(a: real, b: real, t: real)
    requires 0.0 <= t <= 1.0
    ensures Min(a, b) <= Mix(a, b, t) <= Max(a, b)
  {
    var d := b - a;
    assert Mix(a, b, t) == a + d * t;
    if a <= b {
      assert 0.0 <= d * t by { NonNegMul(d, t); }
      assert d * t <= d by { NonNegMul(d, 1.0 - t); }
    } else {
      assert 0.0 <= -d * t by { NonNegMul(-d, t); }
      assert -d * t <= -d by { NonNegMul(-d, 1.0 - t); }
    }
  }

  lemma NonNegMul(p: real, q: real)
    requires 0.0 <= p && 0.0 <= q
    ensures 0.0 <= p * q
  {
  }

  function Mix4(a: Vec4, b: Vec4, t: real): Vec4
  {
    Vec4(Mix(a.x, b.x, t), Mix(a.y, b.y, t), Mix(a.z, b.z, t), Mix(a.w, b.w, t))
  }

  /** Component-wise fmin / fmax of float3 (no NaN over the reals). */
  function Min3(a: Vec3, b: Vec3): Vec3 { Vec3(Min(a.x, b.x), Min(a.y, b.y), Min(a.z, b.z)) }
  function Max3(a: Vec3, b: Vec3): Vec3 { Vec3(Max(a.x, b.x), Max(a.y, b.y), Max(a.z, b.z)) }

  // ---------------------------------------------------------------------
  // Triangle-intersection preprocessing: choice of the dominant axis

  /** The direction with component `axis` moved into z, as the source's
      `rdir`. */
  function SwapIntoZ(d: Vec3, axis: nat): Vec3
    requires axis < 3
  {
    if axis == 0 then Vec3(d.z, d.y, d.x)
    else if axis == 1 then Vec3(d.x, d.z, d.y)
    else d
  }

  /** The axis of largest magnitude: x only when strictly largest, then y
      when strictly larger than z, else z. */
  function MajorAxis(dir: Vec3): (axis: nat)
    ensures axis < 3
  {
    if Abs(dir.x) > Abs(dir.y) && Abs(dir.x) > Abs(dir.z) then 0
    else if Abs(dir.y) > Abs(dir.z) then 1
    else 2
  }

  /** No component is larger in magnitude than the major one, which is
      therefore non-zero for a non-zero direction. */
  lemma MajorAxisIsLargest(dir: Vec3)
    ensures forall k: nat | k < 3 :: Abs(Pick3(dir, k)) <= Abs(Pick3(dir, MajorAxis(dir)))
    ensures dir != Vec3(0.0, 0.0, 0.0) ==> Pick3(dir, MajorAxis(dir)) != 0.0
  {
    var m := MajorAxis(dir);
    assert Abs(Pick3(dir, 0)) <= Abs(Pick3(dir, m));
    assert Abs(Pick3(dir, 1)) <= Abs(Pick3(dir, m));
    assert Abs(Pick3(dir, 2)) <= Abs(Pick3(dir, m));
  }

  /** `ray_triangle_intersection_preprocess`: picks the major axis, swaps it
      into z and returns (x/z, y/z, 1/z) of the swapped direction. A zero
      direction would divide by zero. */
  method RayTriangleIntersectionPreprocess(dir: Vec3) returns (axis: int, s: Vec3)
    requires dir != Vec3(0.0, 0.0, 0.0)
    ensures 0 <= axis < 3 && axis == MajorAxis(dir)
    ensures var rd := SwapIntoZ(dir, axis);
      rd.z != 0.0 && s == Vec3(rd.x / rd.z, rd.y / rd.z, 1.0 / rd.z)
  {
    var ax := Abs(dir.x);
    var ay := Abs(dir.y);
    var az := Abs(dir.z);
    var rdir := dir;
    axis := 2;
    if ax > ay && ax > az {
      axis := 0;
      rdir := Vec3(dir.z, dir.y, dir.x);
    } else if ay > az {
      axis := 1;
      rdir := Vec3(dir.x, dir.z, dir.y);
    }
    MajorAxisIsLargest(dir);
    assert rdir == SwapIntoZ(dir, axis) && rdir.z != 0.0;
    var inv := 1.0 / rdir.z;
    s := Vec3(rdir.x * inv, rdir.y * inv, inv);
    ScaleByInverse(rdir.x, rdir.z);
    ScaleByInverse(rdir.y, rdir.z);
  }

  lemma ScaleByInverse(a: real, z: real)
    requires z != 0.0
    ensures a * (1.0 / z) == a / z
  {
  }

  // ---------------------------------------------------------------------
  // pcg4d

  datatype Uint4 = Uint4(x: bv32, y: bv32, z: bv32, w: bv32)

  /** The `uint4` seed that `pcg4d` updates in place. */
  class Seed {
    var x: bv32
    var y: bv32
    var z: bv32
    var w: bv32

    constructor (v: Uint4)
      ensures x == v.x && y == v.y && z == v.z && w == v.w
    {
      x, y, z, w := v.x, v.y, v.z, v.w;
    }

    function Value(): Uint4
      reads this
    {
      Uint4(x, y, z, w)
    }
  }

  /** The LCG step applied to every lane. */
  function Lcg(v: Uint4): Uint4
  {
    Uint4(v.x * 1664525 + 1013904223, v.y * 1664525 + 1013904223,
          v.z * 1664525 + 1013904223, v.w * 1664525 + 1013904223)
  }

  /** `seed += seed.yzxy * seed.wxyz`, both operands read before the addition,
      so the four lanes are updated simultaneously. */
  function Cross(v: Uint4): Uint4
  {
    Uint4(v.x + v.y * v.w, v.y + v.z * v.x, v.z + v.x * v.y, v.w + v.y * v.z)
  }

  /** `seed ^= seed >> 16` on every lane. */
  function XorShift(v: Uint4): Uint4
  {
    Uint4(v.x ^ (v.x >> 16), v.y ^ (v.y >> 16), v.z ^ (v.z >> 16), v.w ^ (v.w >> 16))
  }

  /** The value `pcg4d` leaves in its seed, stage by stage. */
  function Pcg(v: Uint4): Uint4
  {
    Cross(XorShift(Cross(Lcg(v))))
  }

  /** `pcg4d`: updates the seed in place, one stage after the other, and
      returns it. All arithmetic wraps modulo 2^32. */
  method Pcg4d(seed: Seed) returns (r: Uint4)
    modifies seed
    ensures r == seed.Value() == Pcg(old(seed.Value()))
  {
    var v := Lcg(seed.Value());
    v := Cross(v);
    v := XorShift(v);
    v := Cross(v);
    seed.x, seed.y, seed.z, seed.w := v.x, v.y, v.z, v.w;
    r := v;
  }

  /** `generate_uniform_random4`, seed part: exactly one pcg4d step, whose
      result is the new seed (the conversion of the lanes to floats in [0, 1)
      is not modelled). */
  method GenerateUniformRandom4(seed: Seed) returns (value: Uint4)
    modifies seed
    ensures value == seed.Value() == Pcg(old(seed.Value()))
  {
    value := Pcg4d(seed);
  }

  /** The simultaneous cross-multiply stage maps two different lane vectors
      to the same one. */
  lemma CrossCollision()
    ensures Cross(Uint4(0, 1, 1, 1)) == Cross(Uint4(1, 0, 1, 2))
  {
  }

  /** Consequently pcg4d is not injective: these two seeds (whose LCG images
      are the colliding lane vectors above) hash to the same value. */
  lemma Pcg4dCollision()
    ensures Pcg(Uint4(0x25d60fe5, 0x24b668aa, 0x24b668aa, 0x24b668aa))
         == Pcg(Uint4(0x24b668aa, 0x25d60fe5, 0x24b668aa, 0x2396c16f))
  {
    assert Lcg(Uint4(0x25d60fe5, 0x24b668aa, 0x24b668aa, 0x24b668aa)) == Uint4(0, 1, 1, 1);
    assert Lcg(Uint4(0x24b668aa, 0x25d60fe5, 0x24b668aa, 0x2396c16f)) == Uint4(1, 0, 1, 2);
    CrossCollision();
  }
}
