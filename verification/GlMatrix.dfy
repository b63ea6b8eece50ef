/** AurionGL's 4x4 matrices (column major) and homogeneous vectors, over the reals. */
module GlMatrix {
  type Mat = m: seq<real> | |m| == 16 witness [
    0.0, 0.0, 0.0, 0.0, 0.0, 0.0, 0.0, 0.0, 0.0, 0.0, 0.0, 0.0, 0.0, 0.0, 0.0, 0.0]

  datatype Vec = Vec(x: real, y: real, z: real, w: real)

  /** The element in row `i` and column `j`. */
  function At(m: Mat, i: nat, j: nat): real
    requires i < 4 && j < 4
  {
    m[j * 4 + i]
  }

  /** Row `i` of `a` times column `j` of `b`. */
  function Entry(a: Mat, b: Mat, i: nat, j: nat): real
    requires i < 4 && j < 4
  {
    At(a, i, 0) * At(b, 0, j) + At(a, i, 1) * At(b, 1, j) + At(a, i, 2) * At(b, 2, j) + At(a, i, 3) * At(b, 3, j)
  }

  function Mul(a: Mat, b: Mat): Mat {
    seq(16, k requires 0 <= k < 16 => Entry(a, b, k % 4, k / 4))
  }

  function Identity(): Mat {
    seq(16, k => if k % 5 == 0 then 1.0 else 0.0)
  }

  function Scaled(m: Mat, x: real): Mat {
    seq(16, k requires 0 <= k < 16 => m[k] * x)
  }

  function Transposed(m: Mat): Mat {
    seq(16, k requires 0 <= k < 16 => At(m, k / 4, k % 4))
  }

  function Apply(m: Mat, v: Vec): Vec {
    Vec(m[0] * v.x + m[4] * v.y + m[8] * v.z + m[12] * v.w,
        m[1] * v.x + m[5] * v.y + m[9] * v.z + m[13] * v.w,
        m[2] * v.x + m[6] * v.y + m[10] * v.z + m[14] * v.w,
        m[3] * v.x + m[7] * v.y + m[11] * v.z + m[15] * v.w)
  }

  // ---- The product ----

  method Multiply(a: Mat, b: Mat) returns (r: Mat)
    ensures r == Mul(a, b)
  {
    var result := new real[16];
    var i := 0;
    while i < 4
      invariant 0 <= i <= 4
      invariant forall k :: 0 <= k < 16 && k % 4 < i ==> result[k] == Mul(a, b)[k]
    {
      var j := 0;
      while j < 4
        invariant 0 <= j <= 4
        invariant forall k :: 0 <= k < 16 && (k % 4 < i || (k % 4 == i && k / 4 < j)) ==> result[k] == Mul(a, b)[k]
      {
        result[j * 4 + i] := a[i] * b[j * 4] + a[i + 4] * b[j * 4 + 1] + a[i + 8] * b[j * 4 + 2] + a[i + 12] * b[j * 4 + 3];
        assert result[j * 4 + i] == Entry(a, b, i, j) == Mul(a, b)[j * 4 + i];
        j := j + 1;
      }
      i := i + 1;
    }
    r := result[..];
  }

  lemma MulAt(a: Mat, b: Mat, i: nat, j: nat)
    requires i < 4 && j < 4
    ensures At(Mul(a, b), i, j) == Entry(a, b, i, j)
  {
  }

  lemma SameEntries(a: Mat, b: Mat)
    requires forall i, j :: 0 <= i < 4 && 0 <= j < 4 ==> At(a, i, j) == At(b, i, j)
    ensures a == b
  {
    forall k | 0 <= k < 16 ensures a[k] == b[k] {
      assert At(a, k % 4, k / 4) == At(b, k % 4, k / 4);
    }
  }

  /** A row times a square times a column, bracketed either way. */
  lemma Bracket(a0: real, a1: real, a2: real, a3: real,
                b00: real, b01: real, b02: real, b03: real, b10: real, b11: real, b12: real, b13: real,
                b20: real, b21: real, b22: real, b23: real, b30: real, b31: real, b32: real, b33: real,
                c0: real, c1: real, c2: real, c3: real)
    ensures (a0 * b00 + a1 * b10 + a2 * b20 + a3 * b30) * c0 + (a0 * b01 + a1 * b11 + a2 * b21 + a3 * b31) * c1
          + (a0 * b02 + a1 * b12 + a2 * b22 + a3 * b32) * c2 + (a0 * b03 + a1 * b13 + a2 * b23 + a3 * b33) * c3
         == a0 * (b00 * c0 + b01 * c1 + b02 * c2 + b03 * c3) + a1 * (b10 * c0 + b11 * c1 + b12 * c2 + b13 * c3)
          + a2 * (b20 * c0 + b21 * c1 + b22 * c2 + b23 * c3) + a3 * (b30 * c0 + b31 * c1 + b32 * c2 + b33 * c3)
  {
  }

  lemma MulAssociative(a: Mat, b: Mat, c: Mat)
    ensures Mul(Mul(a, b), c) == Mul(a, Mul(b, c))
  {
    forall i, j | 0 <= i < 4 && 0 <= j < 4 ensures At(Mul(Mul(a, b), c), i, j) == At(Mul(a, Mul(b, c)), i, j) {
      AssociativeAt(a, b, c, i, j);
    }
    SameEntries(Mul(Mul(a, b), c), Mul(a, Mul(b, c)));
  }

  lemma AssociativeAt(a: Mat, b: Mat, c: Mat, i: nat, j: nat)
    requires i < 4 && j < 4
    ensures At(Mul(Mul(a, b), c), i, j) == At(Mul(a, Mul(b, c)), i, j)
  {
    hide *;
    MulAt(Mul(a, b), c, i, j);
    MulAt(a, Mul(b, c), i, j);
    LeftFirst(a, b, c, i, j);
    RightFirst(a, b, c, i, j);
  }

  /** Equal factors may be exchanged in a sum of four products. */
  lemma Exchange(w: real, x: real, y: real, z: real, p: real, q: real, r: real, s: real,
                 a: real, b: real, c: real, d: real)
    requires w == p && x == q && y == r && z == s
    ensures w * a + x * b + y * c + z * d == p * a + q * b + r * c + s * d
  {
  }

  /** What both bracketings of a product come to in one place. */
  function Thrice(a: Mat, b: Mat, c: Mat, i: nat, j: nat): real
    requires i < 4 && j < 4
  {
    At(a, i, 0) * (At(b, 0, 0) * At(c, 0, j) + At(b, 0, 1) * At(c, 1, j) + At(b, 0, 2) * At(c, 2, j) + At(b, 0, 3) * At(c, 3, j))
    + At(a, i, 1) * (At(b, 1, 0) * At(c, 0, j) + At(b, 1, 1) * At(c, 1, j) + At(b, 1, 2) * At(c, 2, j) + At(b, 1, 3) * At(c, 3, j))
    + At(a, i, 2) * (At(b, 2, 0) * At(c, 0, j) + At(b, 2, 1) * At(c, 1, j) + At(b, 2, 2) * At(c, 2, j) + At(b, 2, 3) * At(c, 3, j))
    + At(a, i, 3) * (At(b, 3, 0) * At(c, 0, j) + At(b, 3, 1) * At(c, 1, j) + At(b, 3, 2) * At(c, 2, j) + At(b, 3, 3) * At(c, 3, j))
  }

  lemma RightFirst(a: Mat, b: Mat, c: Mat, i: nat, j: nat)
    requires i < 4 && j < 4
    ensures Entry(a, Mul(b, c), i, j) == Thrice(a, b, c, i, j)
  {
    hide Mul, At;
    MulAt(b, c, 0, j); MulAt(b, c, 1, j); MulAt(b, c, 2, j); MulAt(b, c, 3, j);
    var m := Mul(b, c);
    Exchange(At(m, 0, j), At(m, 1, j), At(m, 2, j), At(m, 3, j),
             At(b, 0, 0) * At(c, 0, j) + At(b, 0, 1) * At(c, 1, j) + At(b, 0, 2) * At(c, 2, j) + At(b, 0, 3) * At(c, 3, j),
             At(b, 1, 0) * At(c, 0, j) + At(b, 1, 1) * At(c, 1, j) + At(b, 1, 2) * At(c, 2, j) + At(b, 1, 3) * At(c, 3, j),
             At(b, 2, 0) * At(c, 0, j) + At(b, 2, 1) * At(c, 1, j) + At(b, 2, 2) * At(c, 2, j) + At(b, 2, 3) * At(c, 3, j),
             At(b, 3, 0) * At(c, 0, j) + At(b, 3, 1) * At(c, 1, j) + At(b, 3, 2) * At(c, 2, j) + At(b, 3, 3) * At(c, 3, j),
             At(a, i, 0), At(a, i, 1), At(a, i, 2), At(a, i, 3));
  }

  lemma LeftFirst(a: Mat, b: Mat, c: Mat, i: nat, j: nat)
    requires i < 4 && j < 4
    ensures Entry(Mul(a, b), c, i, j) == Thrice(a, b, c, i, j)
  {
    hide Mul, At;
    MulAt(a, b, i, 0); MulAt(a, b, i, 1); MulAt(a, b, i, 2); MulAt(a, b, i, 3);
    var m := Mul(a, b);
    Exchange(At(m, i, 0), At(m, i, 1), At(m, i, 2), At(m, i, 3),
             At(a, i, 0) * At(b, 0, 0) + At(a, i, 1) * At(b, 1, 0) + At(a, i, 2) * At(b, 2, 0) + At(a, i, 3) * At(b, 3, 0),
             At(a, i, 0) * At(b, 0, 1) + At(a, i, 1) * At(b, 1, 1) + At(a, i, 2) * At(b, 2, 1) + At(a, i, 3) * At(b, 3, 1),
             At(a, i, 0) * At(b, 0, 2) + At(a, i, 1) * At(b, 1, 2) + At(a, i, 2) * At(b, 2, 2) + At(a, i, 3) * At(b, 3, 2),
             At(a, i, 0) * At(b, 0, 3) + At(a, i, 1) * At(b, 1, 3) + At(a, i, 2) * At(b, 2, 3) + At(a, i, 3) * At(b, 3, 3),
             At(c, 0, j), At(c, 1, j), At(c, 2, j), At(c, 3, j));
  }

  lemma IdentityAt(i: nat, j: nat)
    requires i < 4 && j < 4
    ensures At(Identity(), i, j) == if i == j then 1.0 else 0.0
  {
  }

  lemma IdentityIsNeutral(m: Mat)
    ensures Mul(m, Identity()) == m == Mul(Identity(), m)
  {
    forall i, j | 0 <= i < 4 && 0 <= j < 4
      ensures At(Mul(m, Identity()), i, j) == At(m, i, j) == At(Mul(Identity(), m), i, j)
    {
      NeutralAt(m, i, j);
    }
    SameEntries(Mul(m, Identity()), m);
    SameEntries(Mul(Identity(), m), m);
  }

  lemma NeutralAt(m: Mat, i: nat, j: nat)
    requires i < 4 && j < 4
    ensures At(Mul(m, Identity()), i, j) == At(m, i, j) == At(Mul(Identity(), m), i, j)
  {
    hide Mul, At;
    MulAt(m, Identity(), i, j);
    MulAt(Identity(), m, i, j);
    IdentityAt(0, j); IdentityAt(1, j); IdentityAt(2, j); IdentityAt(3, j);
    IdentityAt(i, 0); IdentityAt(i, 1); IdentityAt(i, 2); IdentityAt(i, 3);
  }

  lemma TransposeAt(m: Mat, i: nat, j: nat)
    requires i < 4 && j < 4
    ensures At(Transposed(m), i, j) == At(m, j, i)
  {
  }

  /** Transposing turns a product round. */
  lemma TransposeProduct(a: Mat, b: Mat)
    ensures Transposed(Mul(a, b)) == Mul(Transposed(b), Transposed(a))
  {
    forall i, j | 0 <= i < 4 && 0 <= j < 4
      ensures At(Transposed(Mul(a, b)), i, j) == At(Mul(Transposed(b), Transposed(a)), i, j)
    {
      TransposeProductAt(a, b, i, j);
    }
    SameEntries(Transposed(Mul(a, b)), Mul(Transposed(b), Transposed(a)));
  }

  lemma TransposeProductAt(a: Mat, b: Mat, i: nat, j: nat)
    requires i < 4 && j < 4
    ensures At(Transposed(Mul(a, b)), i, j) == At(Mul(Transposed(b), Transposed(a)), i, j)
  {
    hide Mul, At, Transposed;
    TransposeAt(Mul(a, b), i, j);
    MulAt(a, b, j, i);
    MulAt(Transposed(b), Transposed(a), i, j);
    TransposeAt(b, i, 0); TransposeAt(b, i, 1); TransposeAt(b, i, 2); TransposeAt(b, i, 3);
    TransposeAt(a, 0, j); TransposeAt(a, 1, j); TransposeAt(a, 2, j); TransposeAt(a, 3, j);
  }

  /** Coordinate `i` of a vector. */
  function Coord(v: Vec, i: nat): real
    requires i < 4
  {
    if i == 0 then v.x else if i == 1 then v.y else if i == 2 then v.z else v.w
  }

  lemma ApplyAt(m: Mat, v: Vec, i: nat)
    requires i < 4
    ensures Coord(Apply(m, v), i) == At(m, i, 0) * v.x + At(m, i, 1) * v.y + At(m, i, 2) * v.z + At(m, i, 3) * v.w
  {
  }

  lemma ApplyFields(m: Mat, v: Vec)
    ensures Apply(m, v).x == At(m, 0, 0) * v.x + At(m, 0, 1) * v.y + At(m, 0, 2) * v.z + At(m, 0, 3) * v.w
    ensures Apply(m, v).y == At(m, 1, 0) * v.x + At(m, 1, 1) * v.y + At(m, 1, 2) * v.z + At(m, 1, 3) * v.w
    ensures Apply(m, v).z == At(m, 2, 0) * v.x + At(m, 2, 1) * v.y + At(m, 2, 2) * v.z + At(m, 2, 3) * v.w
    ensures Apply(m, v).w == At(m, 3, 0) * v.x + At(m, 3, 1) * v.y + At(m, 3, 2) * v.z + At(m, 3, 3) * v.w
  {
  }

  /** Transforming by a product is transforming twice. */
  lemma ApplyProduct(a: Mat, b: Mat, v: Vec)
    ensures Apply(Mul(a, b), v) == Apply(a, Apply(b, v))
  {
    var r, s := Apply(Mul(a, b), v), Apply(a, Apply(b, v));
    ApplyProductAt(a, b, v, 0);
    ApplyProductAt(a, b, v, 1);
    ApplyProductAt(a, b, v, 2);
    ApplyProductAt(a, b, v, 3);
    assert Coord(r, 0) == Coord(s, 0) && Coord(r, 1) == Coord(s, 1)
        && Coord(r, 2) == Coord(s, 2) && Coord(r, 3) == Coord(s, 3) by { hide *; }
    assert r == s by { hide Apply, Mul; }
  }

  lemma ApplyProductAt(a: Mat, b: Mat, v: Vec, i: nat)
    requires i < 4
    ensures Coord(Apply(Mul(a, b), v), i) == Coord(Apply(a, Apply(b, v)), i)
  {
    hide *;
    ApplyAt(Mul(a, b), v, i);
    ApplyAt(a, Apply(b, v), i);
    RowTimesApply(a, b, v, i);
    ProductRowTimes(a, b, v, i);
  }

  /** What both orders of transforming come to in row `i`. */
  function Twice(a: Mat, b: Mat, v: Vec, i: nat): real
    requires i < 4
  {
    At(a, i, 0) * (At(b, 0, 0) * v.x + At(b, 0, 1) * v.y + At(b, 0, 2) * v.z + At(b, 0, 3) * v.w)
    + At(a, i, 1) * (At(b, 1, 0) * v.x + At(b, 1, 1) * v.y + At(b, 1, 2) * v.z + At(b, 1, 3) * v.w)
    + At(a, i, 2) * (At(b, 2, 0) * v.x + At(b, 2, 1) * v.y + At(b, 2, 2) * v.z + At(b, 2, 3) * v.w)
    + At(a, i, 3) * (At(b, 3, 0) * v.x + At(b, 3, 1) * v.y + At(b, 3, 2) * v.z + At(b, 3, 3) * v.w)
  }

  lemma RowTimesApply(a: Mat, b: Mat, v: Vec, i: nat)
    requires i < 4
    ensures At(a, i, 0) * Apply(b, v).x + At(a, i, 1) * Apply(b, v).y
          + At(a, i, 2) * Apply(b, v).z + At(a, i, 3) * Apply(b, v).w == Twice(a, b, v, i)
  {
    hide At, Apply;
    ApplyFields(b, v);
  }

  lemma ProductRowTimes(a: Mat, b: Mat, v: Vec, i: nat)
    requires i < 4
    ensures At(Mul(a, b), i, 0) * v.x + At(Mul(a, b), i, 1) * v.y
          + At(Mul(a, b), i, 2) * v.z + At(Mul(a, b), i, 3) * v.w == Twice(a, b, v, i)
  {
    hide Mul, At;
    MulAt(a, b, i, 0); MulAt(a, b, i, 1); MulAt(a, b, i, 2); MulAt(a, b, i, 3);
    Bracket(At(a, i, 0), At(a, i, 1), At(a, i, 2), At(a, i, 3),
            At(b, 0, 0), At(b, 0, 1), At(b, 0, 2), At(b, 0, 3), At(b, 1, 0), At(b, 1, 1), At(b, 1, 2), At(b, 1, 3),
            At(b, 2, 0), At(b, 2, 1), At(b, 2, 2), At(b, 2, 3), At(b, 3, 0), At(b, 3, 1), At(b, 3, 2), At(b, 3, 3),
            v.x, v.y, v.z, v.w);
  }
}
