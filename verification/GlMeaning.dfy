/** What each matrix call does to the vertices submitted after it, in coordinates. */
module GlMeaning {
  import opened GlMatrix
  import opened GlInverse
  import opened GlPipeline

  /** Row by row the sum of products with the vector. */
  lemma ApplyIs(m: Mat, v: Vec)
    ensures Apply(m, v) == Vec(
      At(m, 0, 0) * v.x + At(m, 0, 1) * v.y + At(m, 0, 2) * v.z + At(m, 0, 3) * v.w,
      At(m, 1, 0) * v.x + At(m, 1, 1) * v.y + At(m, 1, 2) * v.z + At(m, 1, 3) * v.w,
      At(m, 2, 0) * v.x + At(m, 2, 1) * v.y + At(m, 2, 2) * v.z + At(m, 2, 3) * v.w,
      At(m, 3, 0) * v.x + At(m, 3, 1) * v.y + At(m, 3, 2) * v.z + At(m, 3, 3) * v.w)
  {
  }

  /** Rows and columns exchanged. */
  predicate Turned(m: Mat, t: Mat) {
    forall i, j | 0 <= i < 4 && 0 <= j < 4 :: At(t, i, j) == At(m, j, i)
  }

  lemma TransposedIs(m: Mat)
    ensures Turned(m, Transposed(m))
  {
    hide At, Transposed;
    forall i, j | 0 <= i < 4 && 0 <= j < 4
      ensures At(Transposed(m), i, j) == At(m, j, i)
    {
      TransposeAt(m, i, j);
    }
  }

  lemma IdentityApplies(v: Vec)
    ensures Apply(Identity(), v) == v
  {
    var m := Identity();
    assert m[0] == m[5] == m[10] == m[15] == 1.0;
    assert m[1] == m[2] == m[3] == m[4] == m[6] == m[7] == m[8] == m[9] == m[11] == m[12] == m[13] == m[14] == 0.0;
  }

  /** Only the matrix of one mode may differ. */
  predicate OnlyMatrix(g: Gl, r: Gl, mode: Mode) {
    && r.mode == g.mode && r.models == g.models && r.projs == g.projs && r.texs == g.texs
    && r.inside == g.inside && r.points == g.points && r.error == g.error
    && (mode != ModelView ==> r.model == g.model)
    && (mode != Projection ==> r.proj == g.proj)
    && (mode != Texture ==> r.tex == g.tex)
  }

  /** Every multiplication is applied to a vector before what the current matrix did so far, in every mode. */
  lemma MultIs(g: Gl, m: Mat, v: Vec)
    ensures var r := Step(g, Mult(m));
      OnlyMatrix(g, r, g.mode) && Apply(Current(r, g.mode), v) == Apply(Current(g, g.mode), Apply(m, v))
  {
    hide Mul, Apply;
    ApplyProduct(Current(g, g.mode), m, v);
  }

  lemma MultTransposedIs(g: Gl, m: Mat, t: Mat, v: Vec)
    requires Turned(m, t)
    ensures var r := Step(g, MultTransposed(m));
      OnlyMatrix(g, r, g.mode) && Apply(Current(r, g.mode), v) == Apply(Current(g, g.mode), Apply(t, v))
  {
    hide Mul, Apply, At, Transposed;
    TurnedOnce(m, t);
    ApplyProduct(Current(g, g.mode), t, v);
  }

  lemma TurnedOnce(m: Mat, t: Mat)
    requires Turned(m, t)
    ensures Transposed(m) == t
  {
    hide At, Transposed;
    TransposedIs(m);
    forall i, j | 0 <= i < 4 && 0 <= j < 4
      ensures At(Transposed(m), i, j) == At(t, i, j)
    {
    }
    SameEntries(Transposed(m), t);
  }

  lemma TranslateIs(g: Gl, x: real, y: real, z: real, v: Vec)
    ensures var r := Step(g, Translate(x, y, z));
      && OnlyMatrix(g, r, g.mode)
      && Apply(Current(r, g.mode), v) == Apply(Current(g, g.mode), Vec(v.x + x * v.w, v.y + y * v.w, v.z + z * v.w, v.w))
  {
    hide Mul, Apply, Translation;
    ApplyProduct(Current(g, g.mode), Translation(x, y, z), v);
    TranslationMoves(x, y, z, v);
  }

  lemma ScaleIs(g: Gl, x: real, y: real, z: real, v: Vec)
    ensures var r := Step(g, Scale(x, y, z));
      && OnlyMatrix(g, r, g.mode)
      && Apply(Current(r, g.mode), v) == Apply(Current(g, g.mode), Vec(x * v.x, y * v.y, z * v.z, v.w))
  {
    hide Mul, Apply, Scaling;
    ApplyProduct(Current(g, g.mode), Scaling(x, y, z), v);
    ScalingStretches(x, y, z, v);
  }

  /** Loading forgets what the current matrix did. */
  lemma LoadIs(g: Gl, m: Mat, v: Vec)
    ensures OnlyMatrix(g, Step(g, Load(m)), g.mode) && Apply(Current(Step(g, Load(m)), g.mode), v) == Apply(m, v)
    ensures OnlyMatrix(g, Step(g, LoadIdentity), g.mode) && Apply(Current(Step(g, LoadIdentity), g.mode), v) == v
    ensures OnlyMatrix(g, Step(g, LoadTransposed(m)), g.mode) && Turned(m, Current(Step(g, LoadTransposed(m)), g.mode))
  {
    hide Mul, Apply, Transposed, Turned, Identity;
    IdentityApplies(v);
    TransposedIs(m);
  }

  /** A projection replaces the projection matrix in its own mode and is multiplied to it in the others; a view does so
      with the model view. */
  lemma ProjectIs(g: Gl, m: Mat, v: Vec)
    ensures var r := Step(g, Project(m));
      OnlyMatrix(g, r, Projection) && Apply(r.proj, v) == if g.mode == Projection then Apply(m, v) else Apply(g.proj, Apply(m, v))
    ensures var r := Step(g, LookAt(m));
      OnlyMatrix(g, r, ModelView) && Apply(r.model, v) == if g.mode == ModelView then Apply(m, v) else Apply(g.model, Apply(m, v))
  {
    hide Mul, Apply;
    ApplyProduct(g.proj, m, v);
    ApplyProduct(g.model, m, v);
  }

  // ---- through to the vertices ----

  lemma VertexStep(g: Gl, v: Vec)
    requires Cached(g) && g.inside && |g.points| < MAX_VERTICES
    ensures Step(g, Vertex(v)).points == g.points + [Apply(g.proj, Apply(g.model, v))]
  {
    hide Mul, Apply;
    ApplyProduct(g.proj, g.model, v);
  }

  /** A vertex submitted right after a call that leaves the open primitive alone. */
  lemma VertexAfter(g: Gl, op: Op, v: Vec)
    requires var r := Step(g, op); Cached(r) && r.inside && r.points == g.points && |g.points| < MAX_VERTICES
    ensures var r := Step(g, op);
      Run(g, [op, Vertex(v)]).points == g.points + [Apply(r.proj, Apply(r.model, v))]
  {
    hide Apply, Run, Step, Cached;
    var r := Step(g, op);
    RunConcat(g, [op], [Vertex(v)]);
    assert [op] + [Vertex(v)] == [op, Vertex(v)];
    RunOne(g, op);
    RunOne(r, Vertex(v));
    VertexStep(r, v);
  }

  /** In model-view mode a multiplication is applied to the vertices that follow before everything called for earlier. */
  lemma MultipliedVertex(g: Gl, m: Mat, v: Vec)
    requires Cached(g) && g.mode == ModelView && g.inside && |g.points| < MAX_VERTICES
    ensures Run(g, [Mult(m), Vertex(v)]).points == g.points + [Apply(g.mvp, Apply(m, v))]
  {
    hide Mul, Apply, Run;
    StepKeepsCache(g, Mult(m));
    MultIs(g, m, v);
    VertexAfter(g, Mult(m), v);
    ApplyProduct(g.proj, g.model, Apply(m, v));
  }

  lemma ScaledVertex(g: Gl, x: real, y: real, z: real, v: Vec)
    requires Cached(g) && g.mode == ModelView && g.inside && |g.points| < MAX_VERTICES
    ensures Run(g, [Scale(x, y, z), Vertex(v)]).points == g.points + [Apply(g.mvp, Vec(x * v.x, y * v.y, z * v.z, v.w))]
  {
    hide Mul, Apply, Run, Scaling;
    StepKeepsCache(g, Scale(x, y, z));
    ScaleIs(g, x, y, z, v);
    VertexAfter(g, Scale(x, y, z), v);
    ApplyProduct(g.proj, g.model, Vec(x * v.x, y * v.y, z * v.z, v.w));
  }

  /** In projection mode it comes between the model view and the projection so far. */
  lemma ProjectedVertex(g: Gl, m: Mat, v: Vec)
    requires Cached(g) && g.mode == Projection && g.inside && |g.points| < MAX_VERTICES
    ensures Run(g, [Mult(m), Vertex(v)]).points == g.points + [Apply(g.proj, Apply(m, Apply(g.model, v)))]
    ensures Run(g, [Project(m), Vertex(v)]).points == g.points + [Apply(m, Apply(g.model, v))]
  {
    hide Mul, Apply, Run;
    StepKeepsCache(g, Mult(m));
    StepKeepsCache(g, Project(m));
    MultIs(g, m, Apply(g.model, v));
    ProjectIs(g, m, Apply(g.model, v));
    VertexAfter(g, Mult(m), v);
    VertexAfter(g, Project(m), v);
  }

  /** The mode follows the three known codes; any other is an error and changes nothing else. */
  lemma ModeIs(g: Gl, code: nat)
    ensures var r := Step(g, MatrixMode(code));
      && (code == 0x1700 ==> r == g.(mode := ModelView))
      && (code == 0x1701 ==> r == g.(mode := Projection))
      && (code == 0x1702 ==> r == g.(mode := Texture))
      && (code != 0x1700 && code != 0x1701 && code != 0x1702 ==> r == g.(error := 0x0500))
  {
  }

  /** Vertices count between begin and end alone, up to ten thousand of them; begin forgets those before it. */
  lemma PrimitivesAre(g: Gl, code: nat, v: Vec)
    ensures g.inside ==> Step(g, Begin(code)) == g.(error := 0x0502)
    ensures !g.inside && code in {0, 1, 3, 4, 5, 6, 7} ==> Step(g, Begin(code)) == g.(inside := true, points := [])
    ensures !g.inside && code !in {0, 1, 3, 4, 5, 6, 7} ==> Step(g, Begin(code)) == g.(error := 0x0500)
    ensures g.inside ==> Step(g, End) == g.(inside := false)
    ensures !g.inside ==> Step(g, End) == g.(error := 0x0502) && Step(g, Vertex(v)) == g.(error := 0x0502)
    ensures g.inside && |g.points| >= 10000 ==> Step(g, Vertex(v)) == g.(error := 0x0505)
  {
    hide Apply, Mul;
  }

  /** A push on 31 entries and a pop of none are errors that change nothing else. */
  lemma StackErrors(g: Gl)
    requires Cached(g)
    ensures |Stack(g, g.mode)| >= 31 ==> Step(g, Push) == g.(error := 0x0503)
    ensures |Stack(g, g.mode)| == 0 ==> Step(g, Pop) == g.(error := 0x0504)
  {
    hide Mul;
  }
}
