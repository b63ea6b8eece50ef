/** AurionGL's matrix inverse: cofactors over the determinant, the identity when that is zero. */
module GlInverse {
  import opened GlMatrix

  /** Element `k` of the inverse before it is divided by the determinant. */
  function Cofactor(m: Mat, k: nat): real
    requires k < 16
  {
    if k == 0 then
      m[5] * m[10] * m[15] - m[5] * m[11] * m[14] - m[9] * m[6] * m[15]
      + m[9] * m[7] * m[14] + m[13] * m[6] * m[11] - m[13] * m[7] * m[10]
    else if k == 1 then
      -m[1] * m[10] * m[15] + m[1] * m[11] * m[14] + m[9] * m[2] * m[15]
      - m[9] * m[3] * m[14] - m[13] * m[2] * m[11] + m[13] * m[3] * m[10]
    else if k == 2 then
      m[1] * m[6] * m[15] - m[1] * m[7] * m[14] - m[5] * m[2] * m[15]
      + m[5] * m[3] * m[14] + m[13] * m[2] * m[7] - m[13] * m[3] * m[6]
    else if k == 3 then
      -m[1] * m[6] * m[11] + m[1] * m[7] * m[10] + m[5] * m[2] * m[11]
      - m[5] * m[3] * m[10] - m[9] * m[2] * m[7] + m[9] * m[3] * m[6]
    else if k == 4 then
      -m[4] * m[10] * m[15] + m[4] * m[11] * m[14] + m[8] * m[6] * m[15]
      - m[8] * m[7] * m[14] - m[12] * m[6] * m[11] + m[12] * m[7] * m[10]
    else if k == 5 then
      m[0] * m[10] * m[15] - m[0] * m[11] * m[14] - m[8] * m[2] * m[15]
      + m[8] * m[3] * m[14] + m[12] * m[2] * m[11] - m[12] * m[3] * m[10]
    else if k == 6 then
      -m[0] * m[6] * m[15] + m[0] * m[7] * m[14] + m[4] * m[2] * m[15]
      - m[4] * m[3] * m[14] - m[12] * m[2] * m[7] + m[12] * m[3] * m[6]
    else if k == 7 then
      m[0] * m[6] * m[11] - m[0] * m[7] * m[10] - m[4] * m[2] * m[11]
      + m[4] * m[3] * m[10] + m[8] * m[2] * m[7] - m[8] * m[3] * m[6]
    else if k == 8 then
      m[4] * m[9] * m[15] - m[4] * m[11] * m[13] - m[8] * m[5] * m[15]
      + m[8] * m[7] * m[13] + m[12] * m[5] * m[11] - m[12] * m[7] * m[9]
    else if k == 9 then
      -m[0] * m[9] * m[15] + m[0] * m[11] * m[13] + m[8] * m[1] * m[15]
      - m[8] * m[3] * m[13] - m[12] * m[1] * m[11] + m[12] * m[3] * m[9]
    else if k == 10 then
      m[0] * m[5] * m[15] - m[0] * m[7] * m[13] - m[4] * m[1] * m[15]
      + m[4] * m[3] * m[13] + m[12] * m[1] * m[7] - m[12] * m[3] * m[5]
    else if k == 11 then
      -m[0] * m[5] * m[11] + m[0] * m[7] * m[9] + m[4] * m[1] * m[11]
      - m[4] * m[3] * m[9] - m[8] * m[1] * m[7] + m[8] * m[3] * m[5]
    else if k == 12 then
      -m[4] * m[9] * m[14] + m[4] * m[10] * m[13] + m[8] * m[5] * m[14]
      - m[8] * m[6] * m[13] - m[12] * m[5] * m[10] + m[12] * m[6] * m[9]
    else if k == 13 then
      m[0] * m[9] * m[14] - m[0] * m[10] * m[13] - m[8] * m[1] * m[14]
      + m[8] * m[2] * m[13] + m[12] * m[1] * m[10] - m[12] * m[2] * m[9]
    else if k == 14 then
      -m[0] * m[5] * m[14] + m[0] * m[6] * m[13] + m[4] * m[1] * m[14]
      - m[4] * m[2] * m[13] - m[12] * m[1] * m[6] + m[12] * m[2] * m[5]
    else
      m[0] * m[5] * m[10] - m[0] * m[6] * m[9] - m[4] * m[1] * m[10]
      + m[4] * m[2] * m[9] + m[8] * m[1] * m[6] - m[8] * m[2] * m[5]
  }

  function Adjugate(m: Mat): Mat {
    seq(16, k requires 0 <= k < 16 => Cofactor(m, k))
  }

  function Det(m: Mat): real {
    m[0] * Cofactor(m, 0) + m[1] * Cofactor(m, 4) + m[2] * Cofactor(m, 8) + m[3] * Cofactor(m, 12)
  }

  function Inverse(m: Mat): Mat {
    if Det(m) == 0.0 then Identity() else Scaled(Adjugate(m), 1.0 / Det(m))
  }

  method Invert(m: Mat) returns (r: Mat)
    ensures r == Inverse(m)
  {
    hide Cofactor;
    var inv := new real[16](k requires 0 <= k < 16 => Cofactor(m, k));
    var det := m[0] * inv[0] + m[1] * inv[4] + m[2] * inv[8] + m[3] * inv[12];
    assert det == Det(m);
    if det == 0.0 {
      return Identity();
    }
    var invDet := 1.0 / det;
    hide Det;
    var i := 0;
    while i < 16
      invariant 0 <= i <= 16
      invariant forall k :: 0 <= k < i ==> inv[k] == Scaled(Adjugate(m), invDet)[k]
      invariant forall k :: i <= k < 16 ==> inv[k] == Adjugate(m)[k]
    {
      inv[i] := inv[i] * invDet;
      i := i + 1;
    }
    r := inv[..];
  }

  // ---- Cofactors of three vectors ----

  function Dot(u: Vec, v: Vec): real {
    u.x * v.x + u.y * v.y + u.z * v.z + u.w * v.w
  }

  /** The determinant of three vectors' coordinates, three at a time. */
  function Det3(a: real, b: real, c: real, d: real, e: real, f: real, g: real, h: real, i: real): real {
    a * e * i - a * f * h - b * d * i + b * f * g + c * d * h - c * e * g
  }

  function Cross(p: Vec, q: Vec, r: Vec): Vec {
    Vec(Det3(p.y, p.z, p.w, q.y, q.z, q.w, r.y, r.z, r.w), -Det3(p.x, p.z, p.w, q.x, q.z, q.w, r.x, r.z, r.w),
        Det3(p.x, p.y, p.w, q.x, q.y, q.w, r.x, r.y, r.w), -Det3(p.x, p.y, p.z, q.x, q.y, q.z, r.x, r.y, r.z))
  }

  lemma Det3Times(a: real, b: real, c: real, d: real, e: real, f: real, g: real, h: real, i: real, x: real)
    ensures Det3(a, b, c, d, e, f, g, h, i) * x
         == a * e * i * x - a * f * h * x - b * d * i * x + b * f * g * x + c * d * h * x - c * e * g * x
  {
  }

  lemma CrossTimes(p: Vec, q: Vec, r: Vec, v: Vec)
    ensures Dot(Cross(p, q, r), v) ==
      (p.y * q.z * r.w * v.x - p.y * q.w * r.z * v.x - p.z * q.y * r.w * v.x
       + p.z * q.w * r.y * v.x + p.w * q.y * r.z * v.x - p.w * q.z * r.y * v.x)
      - (p.x * q.z * r.w * v.y - p.x * q.w * r.z * v.y - p.z * q.x * r.w * v.y
         + p.z * q.w * r.x * v.y + p.w * q.x * r.z * v.y - p.w * q.z * r.x * v.y)
      + (p.x * q.y * r.w * v.z - p.x * q.w * r.y * v.z - p.y * q.x * r.w * v.z
         + p.y * q.w * r.x * v.z + p.w * q.x * r.y * v.z - p.w * q.y * r.x * v.z)
      - (p.x * q.y * r.z * v.w - p.x * q.z * r.y * v.w - p.y * q.x * r.z * v.w
         + p.y * q.z * r.x * v.w + p.z * q.x * r.y * v.w - p.z * q.y * r.x * v.w)
  {
    CrossNumbers(p.x, p.y, p.z, p.w, q.x, q.y, q.z, q.w, r.x, r.y, r.z, r.w, v.x, v.y, v.z, v.w);
  }

  lemma CrossNumbers(a: real, b: real, c: real, d: real, e: real, f: real, g: real, h: real,
                     i: real, j: real, k: real, l: real, x: real, y: real, z: real, w: real)
    ensures Dot(Cross(Vec(a, b, c, d), Vec(e, f, g, h), Vec(i, j, k, l)), Vec(x, y, z, w)) ==
      (b * g * l * x - b * h * k * x - c * f * l * x + c * h * j * x + d * f * k * x - d * g * j * x)
      - (a * g * l * y - a * h * k * y - c * e * l * y + c * h * i * y + d * e * k * y - d * g * i * y)
      + (a * f * l * z - a * h * j * z - b * e * l * z + b * h * i * z + d * e * j * z - d * f * i * z)
      - (a * f * k * w - a * g * j * w - b * e * k * w + b * g * i * w + c * e * j * w - c * f * i * w)
  {
    hide Det3;
    Det3Times(b, c, d, f, g, h, j, k, l, x);
    Det3Times(a, c, d, e, g, h, i, k, l, y);
    Det3Times(a, b, d, e, f, h, i, j, l, z);
    Det3Times(a, b, c, e, f, g, i, j, k, w);
  }

  lemma CrossOrthogonal(p: Vec, q: Vec, r: Vec)
    ensures Dot(Cross(p, q, r), p) == Dot(Cross(p, q, r), q) == Dot(Cross(p, q, r), r) == 0.0
  {
    hide Dot, Cross;
    CrossTimes(p, q, r, p);
    CrossTimes(p, q, r, q);
    CrossTimes(p, q, r, r);
  }

  lemma CrossSwap(p: Vec, q: Vec, r: Vec, v: Vec)
    ensures Dot(Cross(p, q, r), v) == -Dot(Cross(v, q, r), p)
    ensures Dot(Cross(p, q, r), v) == -Dot(Cross(p, v, r), q)
    ensures Dot(Cross(p, q, r), v) == -Dot(Cross(p, q, v), r)
  {
    hide Dot, Cross;
    CrossTimes(p, q, r, v);
    CrossTimes(v, q, r, p);
    CrossTimes(p, v, r, q);
    CrossTimes(p, q, v, r);
  }

  /** Exchanging the first two vectors, or the last two, turns the sign. */
  lemma CrossTurn(p: Vec, q: Vec, r: Vec, v: Vec)
    ensures Dot(Cross(p, q, r), v) == -Dot(Cross(q, p, r), v) == -Dot(Cross(p, r, q), v)
  {
    hide Dot, Cross;
    CrossTimes(p, q, r, v);
    CrossTimes(q, p, r, v);
    CrossTimes(p, r, q, v);
  }

  lemma DotCommutes(u: Vec, v: Vec)
    ensures Dot(u, v) == Dot(v, u)
  {
  }

  // ---- The cofactors of a matrix ----

  function Row(m: Mat, i: nat): Vec
    requires i < 4
  {
    Vec(m[i], m[4 + i], m[8 + i], m[12 + i])
  }

  function Col(m: Mat, j: nat): Vec
    requires j < 4
  {
    Vec(m[4 * j], m[4 * j + 1], m[4 * j + 2], m[4 * j + 3])
  }

  function Neg(v: Vec): Vec {
    Vec(-v.x, -v.y, -v.z, -v.w)
  }

  lemma EntryIsDot(a: Mat, b: Mat, i: nat, j: nat)
    requires i < 4 && j < 4
    ensures Entry(a, b, i, j) == Dot(Row(a, i), Col(b, j))
  {
  }

  lemma AdjugateAt(m: Mat, k: nat)
    requires k < 16
    ensures Adjugate(m)[k] == Cofactor(m, k)
  {
    hide Cofactor;
  }

  lemma AdjugateRow0(m: Mat)
    ensures Row(Adjugate(m), 0) == Cross(Col(m, 1), Col(m, 2), Col(m, 3))
  {
    hide Adjugate;
    AdjugateAt(m, 0); AdjugateAt(m, 4); AdjugateAt(m, 8); AdjugateAt(m, 12);
  }

  lemma AdjugateRow1(m: Mat)
    ensures Row(Adjugate(m), 1) == Neg(Cross(Col(m, 0), Col(m, 2), Col(m, 3)))
  {
    hide Adjugate;
    AdjugateAt(m, 1); AdjugateAt(m, 5); AdjugateAt(m, 9); AdjugateAt(m, 13);
  }

  lemma AdjugateRow2(m: Mat)
    ensures Row(Adjugate(m), 2) == Cross(Col(m, 0), Col(m, 1), Col(m, 3))
  {
    hide Adjugate;
    AdjugateAt(m, 2); AdjugateAt(m, 6); AdjugateAt(m, 10); AdjugateAt(m, 14);
  }

  lemma AdjugateRow3(m: Mat)
    ensures Row(Adjugate(m), 3) == Neg(Cross(Col(m, 0), Col(m, 1), Col(m, 2)))
  {
    hide Adjugate;
    AdjugateAt(m, 3); AdjugateAt(m, 7); AdjugateAt(m, 11); AdjugateAt(m, 15);
  }

  lemma AdjugateCol0(m: Mat)
    ensures Col(Adjugate(m), 0) == Cross(Row(m, 1), Row(m, 2), Row(m, 3))
  {
    hide Adjugate;
    AdjugateAt(m, 0); AdjugateAt(m, 1); AdjugateAt(m, 2); AdjugateAt(m, 3);
  }

  lemma AdjugateCol1(m: Mat)
    ensures Col(Adjugate(m), 1) == Neg(Cross(Row(m, 0), Row(m, 2), Row(m, 3)))
  {
    hide Adjugate;
    AdjugateAt(m, 4); AdjugateAt(m, 5); AdjugateAt(m, 6); AdjugateAt(m, 7);
  }

  lemma AdjugateCol2(m: Mat)
    ensures Col(Adjugate(m), 2) == Cross(Row(m, 0), Row(m, 1), Row(m, 3))
  {
    hide Adjugate;
    AdjugateAt(m, 8); AdjugateAt(m, 9); AdjugateAt(m, 10); AdjugateAt(m, 11);
  }

  lemma AdjugateCol3(m: Mat)
    ensures Col(Adjugate(m), 3) == Neg(Cross(Row(m, 0), Row(m, 1), Row(m, 2)))
  {
    hide Adjugate;
    AdjugateAt(m, 12); AdjugateAt(m, 13); AdjugateAt(m, 14); AdjugateAt(m, 15);
  }

  lemma DotNeg(u: Vec, v: Vec)
    ensures Dot(Neg(u), v) == -Dot(u, v) == Dot(u, Neg(v))
  {
  }

  lemma DetByColumns(m: Mat)
    ensures Det(m) == Dot(Cross(Col(m, 1), Col(m, 2), Col(m, 3)), Col(m, 0))
  {
    hide Cofactor, Cross, Adjugate;
    AdjugateRow0(m);
    AdjugateAt(m, 0); AdjugateAt(m, 4); AdjugateAt(m, 8); AdjugateAt(m, 12);
  }

  lemma DetByRows(m: Mat)
    ensures Det(m) == Dot(Cross(Row(m, 1), Row(m, 2), Row(m, 3)), Row(m, 0))
  {
    hide Cofactor, Cross, Adjugate, Det, Dot;
    DetByColumns(m);
    CrossNumbers(m[1], m[5], m[9], m[13], m[2], m[6], m[10], m[14], m[3], m[7], m[11], m[15], m[0], m[4], m[8], m[12]);
    CrossNumbers(m[4], m[5], m[6], m[7], m[8], m[9], m[10], m[11], m[12], m[13], m[14], m[15], m[0], m[1], m[2], m[3]);
  }

  lemma CofactorsCols(m: Mat, i: nat, j: nat)
    requires i < 4 && j < 4
    ensures Dot(Row(Adjugate(m), i), Col(m, j)) == if i == j then Det(m) else 0.0
  {
    hide *;
    var a, b, c, d := Col(m, 0), Col(m, 1), Col(m, 2), Col(m, 3);
    DetByColumns(m);
    if i == 0 {
      AdjugateRow0(m);
      CrossOrthogonal(b, c, d);
    } else if i == 1 {
      AdjugateRow1(m);
      DotNeg(Cross(a, c, d), Col(m, j));
      CrossOrthogonal(a, c, d);
      CrossSwap(b, c, d, a);
    } else if i == 2 {
      AdjugateRow2(m);
      CrossOrthogonal(a, b, d);
      CrossSwap(b, c, d, a);
      CrossSwap(b, a, d, c);
      CrossTurn(a, b, d, c);
    } else {
      AdjugateRow3(m);
      DotNeg(Cross(a, b, c), Col(m, j));
      CrossOrthogonal(a, b, c);
      CrossSwap(b, c, d, a);
      CrossSwap(b, c, a, d);
      CrossTurn(a, b, c, d);
      CrossTurn(b, a, c, d);
    }
  }

  lemma CofactorsRows(m: Mat, i: nat, j: nat)
    requires i < 4 && j < 4
    ensures Dot(Col(Adjugate(m), i), Row(m, j)) == if i == j then Det(m) else 0.0
  {
    hide *;
    var a, b, c, d := Row(m, 0), Row(m, 1), Row(m, 2), Row(m, 3);
    DetByRows(m);
    if i == 0 {
      AdjugateCol0(m);
      CrossOrthogonal(b, c, d);
    } else if i == 1 {
      AdjugateCol1(m);
      DotNeg(Cross(a, c, d), Row(m, j));
      CrossOrthogonal(a, c, d);
      CrossSwap(b, c, d, a);
    } else if i == 2 {
      AdjugateCol2(m);
      CrossOrthogonal(a, b, d);
      CrossSwap(b, c, d, a);
      CrossSwap(b, a, d, c);
      CrossTurn(a, b, d, c);
    } else {
      AdjugateCol3(m);
      DotNeg(Cross(a, b, c), Row(m, j));
      CrossOrthogonal(a, b, c);
      CrossSwap(b, c, d, a);
      CrossSwap(b, c, a, d);
      CrossTurn(a, b, c, d);
      CrossTurn(b, a, c, d);
    }
  }

  // ---- The inverse ----

  lemma ScaledEntry(a: Mat, x: real, b: Mat, i: nat, j: nat)
    requires i < 4 && j < 4
    ensures Entry(Scaled(a, x), b, i, j) == Entry(a, b, i, j) * x == Entry(a, Scaled(b, x), i, j)
  {
    hide At;
    ScaledAt(a, x, i, 0); ScaledAt(a, x, i, 1); ScaledAt(a, x, i, 2); ScaledAt(a, x, i, 3);
    ScaledAt(b, x, 0, j); ScaledAt(b, x, 1, j); ScaledAt(b, x, 2, j); ScaledAt(b, x, 3, j);
  }

  lemma ScaledAt(m: Mat, x: real, i: nat, j: nat)
    requires i < 4 && j < 4
    ensures At(Scaled(m, x), i, j) == At(m, i, j) * x
  {
  }

  lemma InverseEntries(m: Mat, i: nat, j: nat)
    requires i < 4 && j < 4 && Det(m) != 0.0
    ensures Entry(Inverse(m), m, i, j) == Entry(m, Inverse(m), i, j) == if i == j then 1.0 else 0.0
  {
    assert Inverse(m) == Scaled(Adjugate(m), 1.0 / Det(m));
    hide *;
    ScaledEntry(Adjugate(m), 1.0 / Det(m), m, i, j);
    ScaledEntry(m, 1.0 / Det(m), Adjugate(m), i, j);
    EntryIsDot(Adjugate(m), m, i, j);
    EntryIsDot(m, Adjugate(m), i, j);
    CofactorsCols(m, i, j);
    CofactorsRows(m, j, i);
    DotCommutes(Row(m, i), Col(Adjugate(m), j));
    Cancels(Det(m));
    assert Entry(Adjugate(m), m, i, j) == Entry(m, Adjugate(m), i, j) == if i == j then Det(m) else 0.0;
  }

  lemma Cancels(x: real)
    requires x != 0.0
    ensures x * (1.0 / x) == 1.0
  {
  }

  /** Whenever the determinant is not zero, the result is an inverse on both sides. */
  lemma InverseInverts(m: Mat)
    requires Det(m) != 0.0
    ensures Mul(Inverse(m), m) == Identity() == Mul(m, Inverse(m))
  {
    hide *;
    forall i, j | 0 <= i < 4 && 0 <= j < 4
      ensures At(Mul(Inverse(m), m), i, j) == At(Identity(), i, j) == At(Mul(m, Inverse(m)), i, j)
    {
      InverseEntries(m, i, j);
      MulAt(Inverse(m), m, i, j);
      MulAt(m, Inverse(m), i, j);
      IdentityAt(i, j);
    }
    SameEntries(Mul(Inverse(m), m), Identity());
    SameEntries(Mul(m, Inverse(m)), Identity());
  }

  // ---- A matrix whose determinant is zero has no inverse ----

  function Zero(): Mat {
    seq(16, k => 0.0)
  }

  lemma ZeroTimes(n: Mat)
    ensures Mul(Zero(), n) == Zero()
  {
    forall i, j | 0 <= i < 4 && 0 <= j < 4 ensures At(Mul(Zero(), n), i, j) == At(Zero(), i, j) {
      MulAt(Zero(), n, i, j);
    }
    SameEntries(Mul(Zero(), n), Zero());
  }

  lemma SingularAdjugate(m: Mat)
    requires Det(m) == 0.0
    ensures Mul(Adjugate(m), m) == Zero()
  {
    forall i, j | 0 <= i < 4 && 0 <= j < 4 ensures At(Mul(Adjugate(m), m), i, j) == At(Zero(), i, j) {
      assert At(Mul(Adjugate(m), m), i, j) == 0.0 by {
        hide *;
        MulAt(Adjugate(m), m, i, j);
        EntryIsDot(Adjugate(m), m, i, j);
        CofactorsCols(m, i, j);
      }
    }
    SameEntries(Mul(Adjugate(m), m), Zero());
  }

  /** Three vectors without cofactors, and a vector that singles out the first: the other two are parallel. */
  lemma Contract(p: Vec, q: Vec, r: Vec, n: Vec)
    requires Cross(p, q, r) == Vec(0.0, 0.0, 0.0, 0.0)
    requires Dot(p, n) == 1.0 && Dot(q, n) == 0.0 && Dot(r, n) == 0.0
    ensures Parallel(q, r)
  {
    hide Det3;
    Det3Turns(p.x, p.y, p.z, q.x, q.y, q.z, r.x, r.y, r.z);
    Det3Turns(p.x, p.y, p.w, q.x, q.y, q.w, r.x, r.y, r.w);
    Det3Turns(p.x, p.z, p.w, q.x, q.z, q.w, r.x, r.z, r.w);
    Det3Turns(p.y, p.z, p.w, q.y, q.z, q.w, r.y, r.z, r.w);
    assert q.x * r.y == q.y * r.x by {
      FoldIn(p.x, p.y, p.z, p.w, q.x, q.y, q.z, q.w, r.x, r.y, r.z, r.w, n.x, n.y, n.z, n.w);
    }
    assert q.x * r.z == q.z * r.x by {
      FoldIn(p.x, p.z, p.w, p.y, q.x, q.z, q.w, q.y, r.x, r.z, r.w, r.y, n.x, n.z, n.w, n.y);
    }
    assert q.x * r.w == q.w * r.x by {
      FoldIn(p.x, p.w, p.y, p.z, q.x, q.w, q.y, q.z, r.x, r.w, r.y, r.z, n.x, n.w, n.y, n.z);
    }
    assert q.z * r.w == q.w * r.z by {
      FoldIn(p.z, p.w, p.x, p.y, q.z, q.w, q.x, q.y, r.z, r.w, r.x, r.y, n.z, n.w, n.x, n.y);
    }
    assert q.w * r.y == q.y * r.w by {
      FoldIn(p.w, p.y, p.x, p.z, q.w, q.y, q.x, q.z, r.w, r.y, r.x, r.z, n.w, n.y, n.x, n.z);
    }
    assert q.y * r.z == q.z * r.y by {
      FoldIn(p.y, p.z, p.w, p.x, q.y, q.z, q.w, q.x, r.y, r.z, r.w, r.x, n.y, n.z, n.w, n.x);
    }
  }

  lemma Det3Turns(a: real, b: real, c: real, d: real, e: real, f: real, g: real, h: real, i: real)
    ensures Det3(a, b, c, d, e, f, g, h, i) == Det3(b, c, a, e, f, d, h, i, g) == Det3(c, a, b, f, d, e, i, g, h)
    ensures Det3(b, a, c, e, d, f, h, g, i) == Det3(a, c, b, d, f, e, g, i, h) == Det3(c, b, a, f, e, d, i, h, g)
         == -Det3(a, b, c, d, e, f, g, h, i)
  {
  }

  lemma FoldIn(p1: real, p2: real, p3: real, p4: real, q1: real, q2: real, q3: real, q4: real,
               r1: real, r2: real, r3: real, r4: real, n1: real, n2: real, n3: real, n4: real)
    requires Det3(p1, p2, p3, q1, q2, q3, r1, r2, r3) == 0.0 == Det3(p1, p2, p4, q1, q2, q4, r1, r2, r4)
    requires p1 * n1 + p2 * n2 + p3 * n3 + p4 * n4 == 1.0
    requires q1 * n1 + q2 * n2 + q3 * n3 + q4 * n4 == 0.0
    requires r1 * n1 + r2 * n2 + r3 * n3 + r4 * n4 == 0.0
    ensures q1 * r2 == q2 * r1
  {
    hide *;
    var x, y, z := q1 * r2 - q2 * r1, p1 * r2 - p2 * r1, p1 * q2 - p2 * q1;
    Det3Times(p1, p2, p3, q1, q2, q3, r1, r2, r3, n3);
    Det3Times(p1, p2, p4, q1, q2, q4, r1, r2, r4, n4);
    Weigh(p1 * n1 + p2 * n2 + p3 * n3 + p4 * n4, q1 * n1 + q2 * n2 + q3 * n3 + q4 * n4,
          r1 * n1 + r2 * n2 + r3 * n3 + r4 * n4, x, y, z);
    assert (p1 * n1 + p2 * n2 + p3 * n3 + p4 * n4) * (q1 * r2 - q2 * r1)
         - (q1 * n1 + q2 * n2 + q3 * n3 + q4 * n4) * (p1 * r2 - p2 * r1)
         + (r1 * n1 + r2 * n2 + r3 * n3 + r4 * n4) * (p1 * q2 - p2 * q1) == 0.0;
  }

  lemma Weigh(a: real, b: real, c: real, x: real, y: real, z: real)
    requires a == 1.0 && b == c == 0.0
    ensures a * x - b * y + c * z == x
  {
  }

  predicate Parallel(q: Vec, r: Vec) {
    && q.x * r.y == q.y * r.x && q.x * r.z == q.z * r.x && q.x * r.w == q.w * r.x
    && q.y * r.z == q.z * r.y && q.y * r.w == q.w * r.y && q.z * r.w == q.w * r.z
  }

  lemma ParallelVanishes(q: Vec, r: Vec, n: Vec)
    requires Parallel(q, r) && Dot(q, n) == 1.0 && Dot(r, n) == 0.0
    ensures r == Vec(0.0, 0.0, 0.0, 0.0)
  {
    assert Dot(q, n) * r.x - Dot(r, n) * q.x == 0.0;
    assert Dot(q, n) * r.y - Dot(r, n) * q.y == 0.0;
    assert Dot(q, n) * r.z - Dot(r, n) * q.z == 0.0;
    assert Dot(q, n) * r.w - Dot(r, n) * q.w == 0.0;
  }

  lemma ColIsZero(j: nat)
    requires j < 4
    ensures Col(Zero(), j) == Vec(0.0, 0.0, 0.0, 0.0)
  {
  }

  lemma RowTimesCol(m: Mat, n: Mat, i: nat, j: nat)
    requires i < 4 && j < 4 && Mul(m, n) == Identity()
    ensures Dot(Row(m, i), Col(n, j)) == if i == j then 1.0 else 0.0
  {
    hide *;
    MulAt(m, n, i, j);
    EntryIsDot(m, n, i, j);
    IdentityAt(i, j);
  }

  lemma NoCofactors(m: Mat)
    requires Adjugate(m) == Zero()
    ensures Cross(Row(m, 0), Row(m, 1), Row(m, 2)) == Vec(0.0, 0.0, 0.0, 0.0)
  {
    hide Adjugate, Cross, Zero, Col, Row;
    AdjugateCol3(m);
    ColIsZero(3);
  }

  lemma RowsVanish(m: Mat, n: Mat)
    requires Mul(m, n) == Identity()
    requires Cross(Row(m, 0), Row(m, 1), Row(m, 2)) == Vec(0.0, 0.0, 0.0, 0.0)
    ensures Row(m, 2) == Vec(0.0, 0.0, 0.0, 0.0)
  {
    hide *;
    RowTimesCol(m, n, 0, 0); RowTimesCol(m, n, 1, 0); RowTimesCol(m, n, 2, 0);
    RowTimesCol(m, n, 1, 1); RowTimesCol(m, n, 2, 1);
    Contract(Row(m, 0), Row(m, 1), Row(m, 2), Col(n, 0));
    ParallelVanishes(Row(m, 1), Row(m, 2), Col(n, 1));
  }

  lemma ZeroDot(v: Vec)
    ensures Dot(Vec(0.0, 0.0, 0.0, 0.0), v) == 0.0
  {
  }

  /** A matrix that has an inverse at all has a determinant that is not zero. */
  lemma InvertibleHasDet(m: Mat, n: Mat)
    requires Mul(m, n) == Identity()
    ensures Det(m) != 0.0
  {
    hide *;
    if Det(m) == 0.0 {
      SingularAdjugate(m);
      MulAssociative(Adjugate(m), m, n);
      IdentityIsNeutral(Adjugate(m));
      ZeroTimes(n);
      NoCofactors(m);
      RowsVanish(m, n);
      RowTimesCol(m, n, 2, 2);
      ZeroDot(Col(n, 2));
      assert false;
    }
  }

  /** The inverse is found exactly when there is one, that is, when the determinant is not zero. */
  lemma InvertibleIff(m: Mat)
    ensures (exists n: Mat :: Mul(m, n) == Identity()) <==> Det(m) != 0.0
    ensures Mul(m, Inverse(m)) == Identity() <==> Det(m) != 0.0
  {
    hide *;
    if Det(m) != 0.0 {
      InverseInverts(m);
    }
    forall n: Mat | Mul(m, n) == Identity() ensures Det(m) != 0.0 {
      InvertibleHasDet(m, n);
    }
  }

  lemma LeftIsRight(m: Mat, n: Mat)
    requires Mul(n, m) == Identity()
    ensures Mul(m, n) == Identity()
  {
    hide *;
    InvertibleHasDet(n, m);
    InverseInverts(n);
    MulAssociative(Inverse(n), n, m);
    IdentityIsNeutral(m);
    IdentityIsNeutral(Inverse(n));
  }

  /** No other matrix undoes `m`, from either side. */
  lemma InverseUnique(m: Mat, n: Mat)
    requires Mul(m, n) == Identity() || Mul(n, m) == Identity()
    ensures n == Inverse(m) && Mul(m, n) == Identity() == Mul(n, m)
  {
    hide *;
    if Mul(n, m) == Identity() {
      LeftIsRight(m, n);
    }
    InvertibleHasDet(m, n);
    InverseInverts(m);
    MulAssociative(Inverse(m), m, n);
    IdentityIsNeutral(n);
    IdentityIsNeutral(Inverse(m));
  }
}
