/** AurionGL's matrix state: three current matrices, their stacks, and the cached product the vertices go through. */
module GlPipeline {
  import opened GlMatrix
  import opened GlInverse

  const MODELVIEW := 0x1700
  const PROJECTION := 0x1701
  const TEXTURE := 0x1702
  const NO_ERROR := 0
  const INVALID_ENUM := 0x0500
  const INVALID_OPERATION := 0x0502
  const STACK_OVERFLOW := 0x0503
  const STACK_UNDERFLOW := 0x0504
  const OUT_OF_MEMORY := 0x0505
  const MAX_MATRIX_STACK := 32
  const MAX_VERTICES := 10000

  datatype Mode = ModelView | Projection | Texture

  /** `mvp` is the cached product; `points` the clip positions of the vertices of the open primitive. */
  datatype Gl = Gl(mode: Mode, model: Mat, proj: Mat, tex: Mat,
                   models: seq<Mat>, projs: seq<Mat>, texs: seq<Mat>,
                   mvp: Mat, inside: bool, points: seq<Vec>, error: nat)

  /** One API call. Matrices built with trigonometry or division come as parameters. */
  datatype Op =
    | MatrixMode(code: nat)
    | LoadIdentity
    | Push
    | Pop
    | Load(m: Mat)
    | Mult(m: Mat)
    | LoadTransposed(m: Mat)
    | MultTransposed(m: Mat)
    | Translate(x: real, y: real, z: real)
    | Scale(x: real, y: real, z: real)
    | Project(m: Mat)
    | LookAt(m: Mat)
    | Begin(code: nat)
    | End
    | Vertex(v: Vec)

  function Start(): Gl {
    Gl(ModelView, Identity(), Identity(), Identity(), [], [], [], Identity(), false, [], NO_ERROR)
  }

  function Translation(x: real, y: real, z: real): Mat {
    Identity()[12 := x][13 := y][14 := z]
  }

  function Scaling(x: real, y: real, z: real): Mat {
    Identity()[0 := x][5 := y][10 := z]
  }

  function Current(g: Gl, mode: Mode): Mat {
    match mode case ModelView => g.model case Projection => g.proj case Texture => g.tex
  }

  function Stack(g: Gl, mode: Mode): seq<Mat> {
    match mode case ModelView => g.models case Projection => g.projs case Texture => g.texs
  }

  function SetCurrent(g: Gl, mode: Mode, m: Mat): Gl {
    match mode case ModelView => g.(model := m) case Projection => g.(proj := m) case Texture => g.(tex := m)
  }

  function SetStack(g: Gl, mode: Mode, s: seq<Mat>): Gl {
    match mode case ModelView => g.(models := s) case Projection => g.(projs := s) case Texture => g.(texs := s)
  }

  function Refreshed(g: Gl): Gl {
    g.(mvp := Mul(g.proj, g.model))
  }

  function ModeOf(code: nat, mode: Mode): Mode {
    if code == MODELVIEW then ModelView
    else if code == PROJECTION then Projection
    else if code == TEXTURE then Texture
    else mode
  }

  predicate IsMode(code: nat) {
    code == MODELVIEW || code == PROJECTION || code == TEXTURE
  }

  /** Points, lines, line strips, triangles, triangle strips, triangle fans and quads. */
  predicate IsPrimitive(code: nat) {
    code in {0x0000, 0x0001, 0x0003, 0x0004, 0x0005, 0x0006, 0x0007}
  }

  function Pushed(g: Gl): Gl {
    var s := Stack(g, g.mode);
    if |s| < MAX_MATRIX_STACK - 1 then SetStack(g, g.mode, s + [Current(g, g.mode)]) else g.(error := STACK_OVERFLOW)
  }

  function Popped(g: Gl): Gl {
    var s := Stack(g, g.mode);
    if |s| > 0 then SetStack(SetCurrent(g, g.mode, s[|s| - 1]), g.mode, s[..|s| - 1])
    else g.(error := STACK_UNDERFLOW)
  }

  function Step(g: Gl, op: Op): Gl {
    match op
    case MatrixMode(code) => if IsMode(code) then g.(mode := ModeOf(code, g.mode)) else g.(error := INVALID_ENUM)
    case LoadIdentity => Refreshed(SetCurrent(g, g.mode, Identity()))
    case Push => Pushed(g)
    case Pop => Refreshed(Popped(g))
    case Load(m) => Refreshed(SetCurrent(g, g.mode, m))
    case Mult(m) => Refreshed(SetCurrent(g, g.mode, Mul(Current(g, g.mode), m)))
    case LoadTransposed(m) => Refreshed(SetCurrent(g, g.mode, Transposed(m)))
    case MultTransposed(m) => Refreshed(SetCurrent(g, g.mode, Mul(Current(g, g.mode), Transposed(m))))
    case Translate(x, y, z) => Refreshed(SetCurrent(g, g.mode, Mul(Current(g, g.mode), Translation(x, y, z))))
    case Scale(x, y, z) => Refreshed(SetCurrent(g, g.mode, Mul(Current(g, g.mode), Scaling(x, y, z))))
    case Project(m) => Refreshed(g.(proj := if g.mode == Projection then m else Mul(g.proj, m)))
    case LookAt(m) => Refreshed(g.(model := if g.mode == ModelView then m else Mul(g.model, m)))
    case Begin(code) =>
      if g.inside then g.(error := INVALID_OPERATION)
      else if IsPrimitive(code) then g.(inside := true, points := [])
      else g.(error := INVALID_ENUM)
    case End => if g.inside then g.(inside := false) else g.(error := INVALID_OPERATION)
    case Vertex(v) =>
      if !g.inside then g.(error := INVALID_OPERATION)
      else if |g.points| >= MAX_VERTICES then g.(error := OUT_OF_MEMORY)
      else g.(points := g.points + [Apply(g.mvp, v)])
  }

  function Run(g: Gl, ops: seq<Op>): Gl
    decreases |ops|
  {
    if ops == [] then g else Run(Step(g, ops[0]), ops[1..])
  }

  // ---- The cached product ----

  predicate Fits(g: Gl) {
    |g.models| < MAX_MATRIX_STACK && |g.projs| < MAX_MATRIX_STACK && |g.texs| < MAX_MATRIX_STACK
    && |g.points| <= MAX_VERTICES
  }

  predicate Cached(g: Gl) {
    Fits(g) && g.mvp == Mul(g.proj, g.model)
  }

  lemma StepKeepsCache(g: Gl, op: Op)
    requires Cached(g)
    ensures Cached(Step(g, op))
  {
    hide Mul, Apply, Identity, Transposed, Translation, Scaling;
  }

  /** In every reachable state the cached product is the projection times the model view. */
  lemma {:induction false} CacheHolds(g: Gl, ops: seq<Op>)
    requires Cached(g)
    ensures Cached(Run(g, ops))
    decreases |ops|
  {
    if ops != [] {
      StepKeepsCache(g, ops[0]);
      CacheHolds(Step(g, ops[0]), ops[1..]);
    }
  }

  lemma StartIsCached()
    ensures Cached(Start())
  {
    IdentityIsNeutral(Identity());
  }

  /** A vertex submitted after any calls is placed by the model view first and the projection second. */
  lemma VertexProjected(ops: seq<Op>, v: Vec)
    ensures var g := Run(Start(), ops);
      g.inside && |g.points| < MAX_VERTICES ==>
        Step(g, Vertex(v)).points == g.points + [Apply(g.proj, Apply(g.model, v))]
  {
    hide Apply, Mul;
    var g := Run(Start(), ops);
    StartIsCached();
    CacheHolds(Start(), ops);
    ApplyProduct(g.proj, g.model, v);
  }

  // ---- Push and pop ----

  /** From mode `at`, the calls push and pop the stack of `mode` in matched pairs, never more than `room` deep,
      starting `level` deep, and end in `mode`. */
  predicate Balanced(ops: seq<Op>, at: Mode, mode: Mode, level: nat, room: nat)
    decreases |ops|
  {
    if ops == [] then at == mode && level == 0
    else match ops[0]
      case MatrixMode(code) => Balanced(ops[1..], ModeOf(code, at), mode, level, room)
      case Push => if at == mode then level < room && Balanced(ops[1..], at, mode, level + 1, room)
                   else Balanced(ops[1..], at, mode, level, room)
      case Pop => if at == mode then level > 0 && Balanced(ops[1..], at, mode, level - 1, room)
                  else Balanced(ops[1..], at, mode, level, room)
      case _ => Balanced(ops[1..], at, mode, level, room)
  }

  /** The level after one call. */
  function Level(op: Op, at: Mode, mode: Mode, level: nat): int {
    if op.Push? && at == mode then level + 1 else if op.Pop? && at == mode then level - 1 else level
  }

  lemma BalancedStep(ops: seq<Op>, at: Mode, mode: Mode, level: nat, room: nat)
    requires ops != [] && Balanced(ops, at, mode, level, room)
    ensures Level(ops[0], at, mode, level) >= 0
    ensures ops[0].Push? && at == mode ==> level < room
    ensures Balanced(ops[1..], if ops[0].MatrixMode? then ModeOf(ops[0].code, at) else at, mode,
                     Level(ops[0], at, mode, level), room)
  {
  }

  /** What one call does to the stack of `mode`. */
  lemma StepStack(g: Gl, op: Op, mode: Mode)
    ensures Step(g, op).mode == if op.MatrixMode? then ModeOf(op.code, g.mode) else g.mode
    ensures Stack(Step(g, op), mode) ==
      if op.Push? && g.mode == mode && |Stack(g, mode)| < MAX_MATRIX_STACK - 1 then Stack(g, mode) + [Current(g, mode)]
      else if op.Pop? && g.mode == mode && |Stack(g, mode)| > 0 then Stack(g, mode)[..|Stack(g, mode)| - 1]
      else Stack(g, mode)
  {
    hide Mul, Apply, Identity, Transposed, Translation, Scaling;
  }

  lemma {:induction false} BalancedKeepsBase(g: Gl, ops: seq<Op>, mode: Mode, base: seq<Mat>, level: nat, room: nat)
    requires Balanced(ops, g.mode, mode, level, room)
    requires |base| + room < MAX_MATRIX_STACK
    requires |Stack(g, mode)| == |base| + level && base <= Stack(g, mode)
    ensures Stack(Run(g, ops), mode) == base && Run(g, ops).mode == mode
    decreases |ops|
  {
    hide Step, Balanced, Stack;
    if ops == [] {
      BalancedNil(g.mode, mode, level, room);
      assert Stack(g, mode) == base;
    } else {
      BalancedStep(ops, g.mode, mode, level, room);
      StepStack(g, ops[0], mode);
      var h, next := Step(g, ops[0]), Level(ops[0], g.mode, mode, level);
      assert |Stack(h, mode)| == |base| + next && base <= Stack(h, mode);
      BalancedKeepsBase(h, ops[1..], mode, base, next, room);
    }
  }

  lemma BalancedNil(at: Mode, mode: Mode, level: nat, room: nat)
    requires Balanced([], at, mode, level, room)
    ensures at == mode && level == 0
  {
  }

  lemma {:induction false} RunConcat(g: Gl, a: seq<Op>, b: seq<Op>)
    ensures Run(g, a + b) == Run(Run(g, a), b)
    decreases |a|
  {
    if a == [] {
      assert a + b == b;
    } else {
      assert (a + b)[1..] == a[1..] + b;
      RunConcat(Step(g, a[0]), a[1..], b);
    }
  }

  /** A push and its matching pop restore the matrix and the stack, whatever balanced calls stand between. */
  lemma PopRestores(g: Gl, ops: seq<Op>, room: nat)
    requires Balanced(ops, g.mode, g.mode, 0, room)
    requires |Stack(g, g.mode)| + 1 + room < MAX_MATRIX_STACK
    ensures var r := Run(g, [Push] + ops + [Pop]);
      && r.mode == g.mode
      && Current(r, g.mode) == Current(g, g.mode)
      && Stack(r, g.mode) == Stack(g, g.mode)
  {
    hide Balanced, Mul, Apply;
    var mode := g.mode;
    var pushed := Step(g, Push);
    var base := Stack(g, mode) + [Current(g, mode)];
    assert Stack(pushed, mode) == base && pushed.mode == mode;
    BalancedKeepsBase(pushed, ops, mode, base, 0, room);
    var inner := Run(pushed, ops);
    PopTakesTop(inner);
    RunBetween(g, ops);
  }

  lemma RunBetween(g: Gl, ops: seq<Op>)
    ensures Run(g, [Push] + ops + [Pop]) == Step(Run(Step(g, Push), ops), Pop)
  {
    hide Step;
    RunConcat(g, [Push] + ops, [Pop]);
    RunConcat(g, [Push], ops);
    RunOne(g, Push);
    RunOne(Run(g, [Push] + ops), Pop);
  }

  lemma RunOne(g: Gl, op: Op)
    ensures Run(g, [op]) == Step(g, op)
  {
    hide Step;
    assert [op][1..] == [];
  }

  lemma PopTakesTop(g: Gl)
    requires |Stack(g, g.mode)| > 0
    ensures var s, r := Stack(g, g.mode), Step(g, Pop);
      r.mode == g.mode && Current(r, g.mode) == s[|s| - 1] && Stack(r, g.mode) == s[..|s| - 1]
  {
    hide Mul;
  }

  lemma PushThenPop(g: Gl)
    requires Fits(g)
    ensures var s, r := Stack(g, g.mode), Step(Step(g, Push), Pop);
      Current(r, g.mode) == if |s| < MAX_MATRIX_STACK - 1 then Current(g, g.mode) else s[|s| - 1]
  {
    hide Mul, Step, Fits;
    PushGrows(g);
    PopTakesTop(Step(g, Push));
  }

  lemma PushGrows(g: Gl)
    requires Fits(g)
    ensures var s, r := Stack(g, g.mode), Step(g, Push);
      && r.mode == g.mode && |s| < MAX_MATRIX_STACK
      && Stack(r, g.mode) == if |s| < MAX_MATRIX_STACK - 1 then s + [Current(g, g.mode)] else s
  {
    hide Mul;
  }

  /** Without room a push is lost: the pop restores the matrix exactly when the top of the stack equals it. */
  lemma PushPopIff(g: Gl)
    requires Fits(g)
    ensures |Stack(g, g.mode)| < MAX_MATRIX_STACK
    ensures var s, r := Stack(g, g.mode), Run(g, [Push, Pop]);
      Current(r, g.mode) == Current(g, g.mode) <==> |s| < MAX_MATRIX_STACK - 1 || s[|s| - 1] == Current(g, g.mode)
  {
    hide *;
    RunBetween(g, []);
    RunNone(Step(g, Push));
    assert [Push] + [] + [Pop] == [Push, Pop];
    PushGrows(g);
    PushThenPop(g);
  }

  function Pushes(n: nat): seq<Op> {
    if n == 0 then [] else [Push] + Pushes(n - 1)
  }

  function Identities(n: nat): seq<Mat> {
    seq(n, _ => Identity())
  }

  lemma {:induction false} PushesRun(k: nat, n: nat)
    requires k + n < MAX_MATRIX_STACK
    ensures Run(Start().(models := Identities(k)), Pushes(n)) == Start().(models := Identities(k + n))
    decreases n
  {
    hide Identity;
    if n > 0 {
      var ops := Pushes(n);
      assert ops[0] == Push && ops[1..] == Pushes(n - 1);
      assert Identities(k) + [Identity()] == Identities(k + 1);
      PushesRun(k + 1, n - 1);
    }
  }

  /** From the start, 31 pushes and a load fill the stack: a push and a pop then lose the loaded matrix. */
  lemma FullStackLoses(m: Mat)
    ensures var g := Run(Start(), Pushes(31) + [Load(m)]);
      && g.mode == ModelView && Current(g, g.mode) == m && |Stack(g, g.mode)| == MAX_MATRIX_STACK - 1
      && Current(Run(g, [Push, Pop]), g.mode) == Identity()
  {
    hide Run, Mul, Identity;
    assert Identities(0) == [];
    PushesRun(0, 31);
    RunConcat(Start(), Pushes(31), [Load(m)]);
    var full := Start().(models := Identities(31));
    RunOne(full, Load(m));
    var g := Step(full, Load(m));
    RunBetween(g, []);
    RunNone(Step(g, Push));
    assert [Push] + [] + [Pop] == [Push, Pop];
    PushThenPop(g);
  }

  lemma RunNone(g: Gl)
    ensures Run(g, []) == g
  {
  }

  /** Multiplying by a matrix and then by its inverse changes nothing, whenever there is an inverse. */
  lemma MultUndone(g: Gl, m: Mat)
    requires Cached(g) && Det(m) != 0.0
    ensures Run(g, [Mult(m)] + [Mult(Inverse(m))]) == g
  {
    hide Mul, Det, Inverse, Run;
    var c := Current(g, g.mode);
    RunConcat(g, [Mult(m)], [Mult(Inverse(m))]);
    RunOne(g, Mult(m));
    RunOne(Step(g, Mult(m)), Mult(Inverse(m)));
    MulAssociative(c, m, Inverse(m));
    InverseInverts(m);
    IdentityIsNeutral(c);
  }

  // ---- What the built matrices do ----

  /** A translation moves points and leaves directions alone. */
  lemma TranslationMoves(x: real, y: real, z: real, v: Vec)
    ensures Apply(Translation(x, y, z), v) == Vec(v.x + x * v.w, v.y + y * v.w, v.z + z * v.w, v.w)
  {
    var m := Translation(x, y, z);
    assert m[0] == m[5] == m[10] == m[15] == 1.0 && m[12] == x && m[13] == y && m[14] == z;
    assert m[1] == m[2] == m[3] == m[4] == m[6] == m[7] == m[8] == m[9] == m[11] == 0.0;
  }

  function TranslationEntry(x: real, y: real, z: real, i: nat, j: nat): real {
    if i == j then 1.0 else if j < 3 then 0.0 else if i == 0 then x else if i == 1 then y else z
  }

  lemma TranslationAt(x: real, y: real, z: real, i: nat, j: nat)
    requires i < 4 && j < 4
    ensures At(Translation(x, y, z), i, j) == TranslationEntry(x, y, z, i, j)
  {
    hide Identity;
    IdentityAt(i, j);
  }

  lemma TranslationsAt(x: real, y: real, z: real, u: real, v: real, w: real, i: nat, j: nat)
    requires i < 4 && j < 4
    ensures At(Mul(Translation(x, y, z), Translation(u, v, w)), i, j) == At(Translation(x + u, y + v, z + w), i, j)
  {
    hide Mul, At, Translation;
    MulAt(Translation(x, y, z), Translation(u, v, w), i, j);
    TranslationAt(x + u, y + v, z + w, i, j);
    TranslationAt(x, y, z, i, 0); TranslationAt(x, y, z, i, 1); TranslationAt(x, y, z, i, 2); TranslationAt(x, y, z, i, 3);
    TranslationAt(u, v, w, 0, j); TranslationAt(u, v, w, 1, j); TranslationAt(u, v, w, 2, j); TranslationAt(u, v, w, 3, j);
  }

  /** A later translation adds up with an earlier one. */
  lemma TranslationsAdd(x: real, y: real, z: real, u: real, v: real, w: real)
    ensures Mul(Translation(x, y, z), Translation(u, v, w)) == Translation(x + u, y + v, z + w)
  {
    hide Mul, At, Translation;
    var m := Mul(Translation(x, y, z), Translation(u, v, w));
    forall i, j | 0 <= i < 4 && 0 <= j < 4
      ensures At(m, i, j) == At(Translation(x + u, y + v, z + w), i, j)
    {
      TranslationsAt(x, y, z, u, v, w, i, j);
    }
    SameEntries(m, Translation(x + u, y + v, z + w));
  }

  lemma ScalingStretches(x: real, y: real, z: real, v: Vec)
    ensures Apply(Scaling(x, y, z), v) == Vec(x * v.x, y * v.y, z * v.z, v.w)
  {
    var m := Scaling(x, y, z);
    assert m[0] == x && m[5] == y && m[10] == z && m[15] == 1.0;
    assert m[1] == m[2] == m[3] == m[4] == m[6] == m[7] == m[8] == m[9] == m[11] == m[12] == m[13] == m[14] == 0.0;
  }

  /** A translation called for is applied to the vertex before the transformations called for earlier. */
  lemma TranslatedVertex(g: Gl, x: real, y: real, z: real, v: Vec)
    requires Cached(g) && g.mode == ModelView && g.inside && |g.points| < MAX_VERTICES
    ensures Run(g, [Translate(x, y, z), Vertex(v)]).points
         == g.points + [Apply(g.mvp, Vec(v.x + x * v.w, v.y + y * v.w, v.z + z * v.w, v.w))]
  {
    hide Mul, Apply, Translation, Run;
    RunConcat(g, [Translate(x, y, z)], [Vertex(v)]);
    assert [Translate(x, y, z)] + [Vertex(v)] == [Translate(x, y, z), Vertex(v)];
    RunOne(g, Translate(x, y, z));
    RunOne(Step(g, Translate(x, y, z)), Vertex(v));
    MulAssociative(g.proj, g.model, Translation(x, y, z));
    ApplyProduct(g.mvp, Translation(x, y, z), v);
    TranslationMoves(x, y, z, v);
  }
}
