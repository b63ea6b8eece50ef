/** AurionGL's rotation about an axis, given the cosine and sine of the angle and a unit axis. */
module GlRotation {
  import opened GlMatrix
  import opened GlInverse

  function Rotation(c: real, s: real, x: real, y: real, z: real): Mat {
    Turn(c, s, 1.0 - c, x, y, z)
  }

  function Turn(c: real, s: real, t: real, x: real, y: real, z: real): Mat {
    [t * x * x + c, t * x * y + s * z, t * x * z - s * y, 0.0,
     t * x * y - s * z, t * y * y + c, t * y * z + s * x, 0.0,
     t * x * z + s * y, t * y * z - s * x, t * z * z + c, 0.0,
     0.0, 0.0, 0.0, 1.0]
  }

  lemma RotationIsTurn(c: real, s: real, x: real, y: real, z: real)
    ensures Rotation(c, s, x, y, z) == Turn(c, s, 1.0 - c, x, y, z)
  {
  }

  lemma TimesZero(a: real, z: real)
    requires z == 0.0
    ensures a * z == 0.0
  {
  }

  /** With cosine c and sine s, and t for 1 - c. */
  lemma HalfTurn(c: real, s: real, t: real)
    requires c * c + s * s == 1.0 && t == 1.0 - c
    ensures t * t + 2.0 * t * c - s * s == 0.0
  {
    assert t * t + 2.0 * t * c - s * s == (1.0 - c) * (1.0 - c) + 2.0 * (1.0 - c) * c - s * s;
  }

  /** The length of a row, over the two conditions v and w that make it one. */
  lemma LengthExpands(c: real, s: real, t: real, x: real, y: real, z: real, w: real, v: real, p: real)
    requires w == t * t + 2.0 * t * c - s * s && v == x * x + y * y + z * z - 1.0 && p == x * x
    ensures (t * x * x + c) * (t * x * x + c) + (t * x * y - s * z) * (t * x * y - s * z)
          + (t * x * z + s * y) * (t * x * z + s * y)
         == p * w + (t * t * p) * v + c * c + s * s + (s * s) * v
  {
  }

  lemma LengthOf(c: real, s: real, t: real, x: real, y: real, z: real, i: real, j: real, k: real)
    requires i == t * x * x + c && j == t * x * y - s * z && k == t * x * z + s * y
    ensures i * i + j * j + k * k
         == (t * x * x + c) * (t * x * x + c) + (t * x * y - s * z) * (t * x * y - s * z)
          + (t * x * z + s * y) * (t * x * z + s * y)
  {
  }

  /** A row of the rotation has length one. */
  lemma RowLength(c: real, s: real, t: real, x: real, y: real, z: real, i: real, j: real, k: real)
    requires c * c + s * s == 1.0 && x * x + y * y + z * z == 1.0 && t == 1.0 - c
    requires i == t * x * x + c && j == t * x * y - s * z && k == t * x * z + s * y
    ensures i * i + j * j + k * k == 1.0
  {
    var w, v, p := t * t + 2.0 * t * c - s * s, x * x + y * y + z * z - 1.0, x * x;
    assert w == 0.0 by { HalfTurn(c, s, t); }
    LengthOf(c, s, t, x, y, z, i, j, k);
    LengthExpands(c, s, t, x, y, z, w, v, p);
    TimesZero(p, w);
    TimesZero(t * t * p, v);
    TimesZero(s * s, v);
  }

  /** The product of two rows, over the same conditions. */
  lemma ProductExpands(c: real, s: real, t: real, x: real, y: real, z: real, w: real, v: real, p: real)
    requires w == t * t + 2.0 * t * c - s * s && v == x * x + y * y + z * z - 1.0 && p == x * y
    ensures (t * x * x + c) * (t * x * y + s * z) + (t * x * y - s * z) * (t * y * y + c)
          + (t * x * z + s * y) * (t * y * z - s * x) == p * w + (t * t * p) * v
  {
  }

  lemma ProductOf(c: real, s: real, t: real, x: real, y: real, z: real,
                  i: real, j: real, k: real, l: real, m: real, n: real)
    requires i == t * x * x + c && j == t * x * y - s * z && k == t * x * z + s * y
    requires l == t * x * y + s * z && m == t * y * y + c && n == t * y * z - s * x
    ensures i * l + j * m + k * n
         == (t * x * x + c) * (t * x * y + s * z) + (t * x * y - s * z) * (t * y * y + c)
          + (t * x * z + s * y) * (t * y * z - s * x)
  {
  }

  /** Two rows of the rotation are at a right angle. */
  lemma RowsOrthogonal(c: real, s: real, t: real, x: real, y: real, z: real,
                       i: real, j: real, k: real, l: real, m: real, n: real)
    requires c * c + s * s == 1.0 && x * x + y * y + z * z == 1.0 && t == 1.0 - c
    requires i == t * x * x + c && j == t * x * y - s * z && k == t * x * z + s * y
    requires l == t * x * y + s * z && m == t * y * y + c && n == t * y * z - s * x
    ensures i * l + j * m + k * n == 0.0
  {
    var w, v, p := t * t + 2.0 * t * c - s * s, x * x + y * y + z * z - 1.0, x * y;
    assert w == 0.0 by { HalfTurn(c, s, t); }
    ProductOf(c, s, t, x, y, z, i, j, k, l, m, n);
    ProductExpands(c, s, t, x, y, z, w, v, p);
    TimesZero(p, w);
    TimesZero(t * t * p, v);
  }

  lemma TurnRows(c: real, s: real, t: real, x: real, y: real, z: real)
    ensures var m := Turn(c, s, t, x, y, z);
      && Row(m, 0) == Vec(t * x * x + c, t * x * y - s * z, t * x * z + s * y, 0.0)
      && Row(m, 1) == Vec(t * x * y + s * z, t * y * y + c, t * y * z - s * x, 0.0)
      && Row(m, 2) == Vec(t * x * z - s * y, t * y * z + s * x, t * z * z + c, 0.0)
      && Row(m, 3) == Vec(0.0, 0.0, 0.0, 1.0)
  {
  }

  lemma DotOfThree(u: Vec, v: Vec, a: real, b: real, d: real, e: real, f: real, g: real, dot: real)
    requires u == Vec(a, b, d, 0.0) && v == Vec(e, f, g, 0.0) && a * e + b * f + d * g == dot
    ensures Dot(u, v) == dot
  {
  }

  lemma DotWithLast(v: Vec)
    ensures Dot(v, Vec(0.0, 0.0, 0.0, 1.0)) == v.w
  {
  }

  lemma RowsAreUnits(c: real, s: real, t: real, x: real, y: real, z: real, i: nat, j: nat)
    requires c * c + s * s == 1.0 && x * x + y * y + z * z == 1.0 && t == 1.0 - c
    requires i <= j < 4
    ensures Dot(Row(Turn(c, s, t, x, y, z), i), Row(Turn(c, s, t, x, y, z), j)) == if i == j then 1.0 else 0.0
  {
    hide *;
    TurnRows(c, s, t, x, y, z);
    if j == 3 {
      DotWithLast(Row(Turn(c, s, t, x, y, z), i));
    } else if i == j {
      RowIsUnit(c, s, t, x, y, z, i);
    } else {
      RowsApart(c, s, t, x, y, z, i, j);
    }
  }

  lemma RowIsUnit(c: real, s: real, t: real, x: real, y: real, z: real, i: nat)
    requires c * c + s * s == 1.0 && x * x + y * y + z * z == 1.0 && t == 1.0 - c
    requires i < 3
    ensures Dot(Row(Turn(c, s, t, x, y, z), i), Row(Turn(c, s, t, x, y, z), i)) == 1.0
  {
    hide *;
    if i == 0 {
      Row0IsUnit(c, s, t, x, y, z);
    } else if i == 1 {
      Row1IsUnit(c, s, t, x, y, z);
    } else {
      Row2IsUnit(c, s, t, x, y, z);
    }
  }

  lemma Row0IsUnit(c: real, s: real, t: real, x: real, y: real, z: real)
    requires c * c + s * s == 1.0 && x * x + y * y + z * z == 1.0 && t == 1.0 - c
    ensures Dot(Row(Turn(c, s, t, x, y, z), 0), Row(Turn(c, s, t, x, y, z), 0)) == 1.0
  {
    hide *;
    var u := Row(Turn(c, s, t, x, y, z), 0);
    var a, b, d := t * x * x + c, t * x * y - s * z, t * x * z + s * y;
    RowLength(c, s, t, x, y, z, a, b, d);
    assert u == Vec(a, b, d, 0.0) by { TurnRows(c, s, t, x, y, z); }
    DotOfThree(u, u, a, b, d, a, b, d, 1.0);
  }

  lemma Row1IsUnit(c: real, s: real, t: real, x: real, y: real, z: real)
    requires c * c + s * s == 1.0 && x * x + y * y + z * z == 1.0 && t == 1.0 - c
    ensures Dot(Row(Turn(c, s, t, x, y, z), 1), Row(Turn(c, s, t, x, y, z), 1)) == 1.0
  {
    hide *;
    var u := Row(Turn(c, s, t, x, y, z), 1);
    var e, f, g := t * x * y + s * z, t * y * y + c, t * y * z - s * x;
    RowLength(c, s, t, y, z, x, f, g, e);
    assert u == Vec(e, f, g, 0.0) by { TurnRows(c, s, t, x, y, z); }
    DotOfThree(u, u, e, f, g, e, f, g, 1.0);
  }

  lemma Row2IsUnit(c: real, s: real, t: real, x: real, y: real, z: real)
    requires c * c + s * s == 1.0 && x * x + y * y + z * z == 1.0 && t == 1.0 - c
    ensures Dot(Row(Turn(c, s, t, x, y, z), 2), Row(Turn(c, s, t, x, y, z), 2)) == 1.0
  {
    hide *;
    var u := Row(Turn(c, s, t, x, y, z), 2);
    var h, k, l := t * x * z - s * y, t * y * z + s * x, t * z * z + c;
    RowLength(c, s, t, z, x, y, l, h, k);
    assert u == Vec(h, k, l, 0.0) by { TurnRows(c, s, t, x, y, z); }
    DotOfThree(u, u, h, k, l, h, k, l, 1.0);
  }

  lemma RowsApart(c: real, s: real, t: real, x: real, y: real, z: real, i: nat, j: nat)
    requires c * c + s * s == 1.0 && x * x + y * y + z * z == 1.0 && t == 1.0 - c
    requires i < j < 3
    ensures Dot(Row(Turn(c, s, t, x, y, z), i), Row(Turn(c, s, t, x, y, z), j)) == 0.0
  {
    hide *;
    var m := Turn(c, s, t, x, y, z);
    var a, b, d := t * x * x + c, t * x * y - s * z, t * x * z + s * y;
    var e, f, g := t * x * y + s * z, t * y * y + c, t * y * z - s * x;
    var h, k, l := t * x * z - s * y, t * y * z + s * x, t * z * z + c;
    if j == 1 {
      RowsOrthogonal(c, s, t, x, y, z, a, b, d, e, f, g);
      assert Row(m, i) == Vec(a, b, d, 0.0) && Row(m, j) == Vec(e, f, g, 0.0) by { TurnRows(c, s, t, x, y, z); }
      DotOfThree(Row(m, i), Row(m, j), a, b, d, e, f, g, 0.0);
    } else if i == 1 {
      RowsOrthogonal(c, s, t, y, z, x, f, g, e, k, l, h);
      assert e * h + f * k + g * l == 0.0;
      assert Row(m, i) == Vec(e, f, g, 0.0) && Row(m, j) == Vec(h, k, l, 0.0) by { TurnRows(c, s, t, x, y, z); }
      DotOfThree(Row(m, i), Row(m, j), e, f, g, h, k, l, 0.0);
    } else {
      RowsOrthogonal(c, s, t, z, x, y, l, h, k, d, a, b);
      assert a * h + b * k + d * l == 0.0;
      assert Row(m, i) == Vec(a, b, d, 0.0) && Row(m, j) == Vec(h, k, l, 0.0) by { TurnRows(c, s, t, x, y, z); }
      DotOfThree(Row(m, i), Row(m, j), a, b, d, h, k, l, 0.0);
    }
  }

  lemma ColOfTransposed(m: Mat, j: nat)
    requires j < 4
    ensures Col(Transposed(m), j) == Row(m, j)
  {
  }

  /** A rotation is rigid: its transpose undoes it, and is what the cofactor inverse returns. */
  lemma RotationInverse(c: real, s: real, x: real, y: real, z: real)
    requires c * c + s * s == 1.0 && x * x + y * y + z * z == 1.0
    ensures var m := Rotation(c, s, x, y, z);
      Mul(m, Transposed(m)) == Identity() == Mul(Transposed(m), m) && Inverse(m) == Transposed(m)
  {
    hide *;
    RotationIsTurn(c, s, x, y, z);
    var m := Rotation(c, s, x, y, z);
    forall i, j | 0 <= i < 4 && 0 <= j < 4 ensures At(Mul(m, Transposed(m)), i, j) == At(Identity(), i, j) {
      MulAt(m, Transposed(m), i, j);
      EntryIsDot(m, Transposed(m), i, j);
      ColOfTransposed(m, j);
      DotCommutes(Row(m, i), Row(m, j));
      RowsAreUnits(c, s, 1.0 - c, x, y, z, if i <= j then i else j, if i <= j then j else i);
      IdentityAt(i, j);
    }
    SameEntries(Mul(m, Transposed(m)), Identity());
    InverseUnique(m, Transposed(m));
  }

  /** One coordinate of a turned vector. */
  lemma Turned(c: real, s: real, t: real, x: real, y: real, z: real, a: real, b: real, e: real)
    ensures (t * x * x + c) * a + (t * x * y - s * z) * b + (t * x * z + s * y) * e
         == c * a + s * (y * e - z * b) + t * (x * a + y * b + z * e) * x
  {
  }

  /** Where a rotation takes a vector v: c v + s (axis x v) + (1 - c) (axis . v) axis, whatever the axis. */
  lemma RotationTurns(c: real, s: real, t: real, x: real, y: real, z: real, v: Vec)
    requires t == 1.0 - c
    ensures Apply(Rotation(c, s, x, y, z), v) ==
      Vec(c * v.x + s * (y * v.z - z * v.y) + t * (x * v.x + y * v.y + z * v.z) * x,
          c * v.y + s * (z * v.x - x * v.z) + t * (y * v.y + z * v.z + x * v.x) * y,
          c * v.z + s * (x * v.y - y * v.x) + t * (z * v.z + x * v.x + y * v.y) * z, v.w)
  {
    hide *;
    RotationIsTurn(c, s, x, y, z);
    ApplyIsDots(Turn(c, s, t, x, y, z), v);
    Row0Turns(c, s, t, x, y, z, v);
    Row1Turns(c, s, t, x, y, z, v);
    Row2Turns(c, s, t, x, y, z, v);
    Row3Turns(c, s, t, x, y, z, v);
  }

  lemma DotGives(u: Vec, v: Vec, a: real, b: real, d: real, w: real)
    requires u == Vec(a, b, d, 0.0) && a * v.x + b * v.y + d * v.z == w
    ensures Dot(u, v) == w
  {
  }

  lemma Row0Turns(c: real, s: real, t: real, x: real, y: real, z: real, v: Vec)
    ensures Dot(Row(Turn(c, s, t, x, y, z), 0), v) == c * v.x + s * (y * v.z - z * v.y) + t * (x * v.x + y * v.y + z * v.z) * x
  {
    hide *;
    var u := Row(Turn(c, s, t, x, y, z), 0);
    Turned(c, s, t, x, y, z, v.x, v.y, v.z);
    assert u == Vec(t * x * x + c, t * x * y - s * z, t * x * z + s * y, 0.0) by { TurnRows(c, s, t, x, y, z); }
    DotGives(u, v, t * x * x + c, t * x * y - s * z, t * x * z + s * y,
             c * v.x + s * (y * v.z - z * v.y) + t * (x * v.x + y * v.y + z * v.z) * x);
  }

  lemma Row1Turns(c: real, s: real, t: real, x: real, y: real, z: real, v: Vec)
    ensures Dot(Row(Turn(c, s, t, x, y, z), 1), v) == c * v.y + s * (z * v.x - x * v.z) + t * (y * v.y + z * v.z + x * v.x) * y
  {
    hide *;
    var u := Row(Turn(c, s, t, x, y, z), 1);
    Turned(c, s, t, y, z, x, v.y, v.z, v.x);
    assert u == Vec(t * x * y + s * z, t * y * y + c, t * y * z - s * x, 0.0) by { TurnRows(c, s, t, x, y, z); }
    DotGives(u, v, t * x * y + s * z, t * y * y + c, t * y * z - s * x,
             c * v.y + s * (z * v.x - x * v.z) + t * (y * v.y + z * v.z + x * v.x) * y);
  }

  lemma Row2Turns(c: real, s: real, t: real, x: real, y: real, z: real, v: Vec)
    ensures Dot(Row(Turn(c, s, t, x, y, z), 2), v) == c * v.z + s * (x * v.y - y * v.x) + t * (z * v.z + x * v.x + y * v.y) * z
  {
    hide *;
    var u := Row(Turn(c, s, t, x, y, z), 2);
    Turned(c, s, t, z, x, y, v.z, v.x, v.y);
    assert u == Vec(t * x * z - s * y, t * y * z + s * x, t * z * z + c, 0.0) by { TurnRows(c, s, t, x, y, z); }
    DotGives(u, v, t * x * z - s * y, t * y * z + s * x, t * z * z + c,
             c * v.z + s * (x * v.y - y * v.x) + t * (z * v.z + x * v.x + y * v.y) * z);
  }

  lemma Row3Turns(c: real, s: real, t: real, x: real, y: real, z: real, v: Vec)
    ensures Dot(Row(Turn(c, s, t, x, y, z), 3), v) == v.w
  {
    hide *;
    TurnRows(c, s, t, x, y, z);
    DotNumbers(0.0, 0.0, 0.0, 1.0, v);
  }

  lemma ApplyIsDots(m: Mat, v: Vec)
    ensures Apply(m, v) == Vec(Dot(Row(m, 0), v), Dot(Row(m, 1), v), Dot(Row(m, 2), v), Dot(Row(m, 3), v))
  {
  }

  lemma DotNumbers(a: real, b: real, c: real, d: real, v: Vec)
    ensures Dot(Vec(a, b, c, d), v) == a * v.x + b * v.y + c * v.z + d * v.w
  {
  }
}
