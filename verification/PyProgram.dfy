/** Statement trees of the AurionPython interpreter, their printed lines, and their meaning. */
module PyProgram {
  import opened CText
  import opened PyExpr
  import opened PyBlock

  datatype Block = Nil | Seq(head: Stmt, tail: Block)

  /** `Skip` is a blank or comment line with any indentation of its own. */
  datatype Stmt =
    | Skip(line: string)
    | Assign(name: string, e: Expr)
    | Print(args: Args)
    | If(cond: Expr, body: Block, chain: Chain)
    | While(cond: Expr, body: Block)
    | For(name: string, range: Range, body: Block)

  datatype Chain = NoElse | Elif(cond: Expr, body: Block, chain: Chain) | Else(body: Block)

  datatype Args = One(e: Expr) | More(e: Expr, rest: Args)

  datatype Range = UpTo(hi: int) | FromTo(lo: int, hi: int)

  // ---- printing ----

  function ArgsText(args: Args): string {
    match args
    case One(e) => PyExpr.Print(e)
    case More(e, rest) => PyExpr.Print(e) + ", " + ArgsText(rest)
  }

  function RangeArgs(r: Range): string {
    match r
    case UpTo(hi) => Itoa(hi)
    case FromTo(lo, hi) => Itoa(lo) + ", " + Itoa(hi)
  }

  /** The text of a statement's first line, after its indentation. */
  function Head(s: Stmt): string
    requires !s.Skip?
  {
    match s
    case Assign(name, e) => name + " = " + PyExpr.Print(e)
    case Print(args) => "print(" + ArgsText(args) + ")"
    case If(cond, _, _) => "if " + PyExpr.Print(cond) + ":"
    case While(cond, _) => "while " + PyExpr.Print(cond) + ":"
    case For(name, r, _) => "for " + name + " in range(" + RangeArgs(r) + "):"
  }

  function ChainHead(c: Chain): string
    requires !c.NoElse?
  {
    if c.Elif? then "elif " + PyExpr.Print(c.cond) + ":" else "else:"
  }

  /** The lines of a block: `ind` is the indentation of its statements, `unit` what one more level adds. */
  function Lines(b: Block, ind: string, unit: string): seq<string> {
    match b
    case Nil => []
    case Seq(s, tail) => StmtLines(s, ind, unit) + Lines(tail, ind, unit)
  }

  function StmtLines(s: Stmt, ind: string, unit: string): seq<string> {
    match s
    case Skip(line) => [line]
    case If(_, body, chain) =>
      [ind + Head(s)] + Lines(body, ind + unit, unit) + ChainLines(chain, ind, unit)
    case While(_, body) => [ind + Head(s)] + Lines(body, ind + unit, unit)
    case For(_, _, body) => [ind + Head(s)] + Lines(body, ind + unit, unit)
    case _ => [ind + Head(s)]
  }

  function ChainLines(c: Chain, ind: string, unit: string): seq<string> {
    match c
    case NoElse => []
    case Elif(_, body, chain) =>
      [ind + ChainHead(c)] + Lines(body, ind + unit, unit) + ChainLines(chain, ind, unit)
    case Else(body) => [ind + ChainHead(c)] + Lines(body, ind + unit, unit)
  }

  // ---- meaning ----

  function Shown(args: Args, env: Env): string {
    match args
    case One(e) => Show(Meaning(e, env))
    case More(e, rest) => Show(Meaning(e, env)) + " " + Shown(rest, env)
  }

  predicate Holds(cond: Expr, st: State) {
    Meaning(cond, st.env).ival != 0
  }

  function Exec(b: Block, st: State): State
    decreases b, 0
  {
    match b
    case Nil => st
    case Seq(s, tail) => Exec(tail, ExecStmt(s, st))
  }

  function ExecStmt(s: Stmt, st: State): State
    decreases s, 0
  {
    match s
    case Skip(_) => st
    case Assign(name, e) => st.(env := SetVar(st.env, name, Meaning(e, st.env)))
    case Print(args) => st.(out := st.out + Shown(args, st.env) + "\n")
    case If(cond, body, chain) => if Holds(cond, st) then Exec(body, st) else ExecChain(chain, st)
    case While(cond, body) => ExecWhile(cond, body, MAX_ROUNDS, st)
    case For(name, r, body) => ExecFor(name, if r.FromTo? then r.lo else 0, r.hi, body, st)
  }

  /** Exactly one arm runs: the first whose condition holds, else the `else` arm if there is one. */
  function ExecChain(c: Chain, st: State): State
    decreases c, 0
  {
    match c
    case NoElse => st
    case Elif(cond, body, chain) => if Holds(cond, st) then Exec(body, st) else ExecChain(chain, st)
    case Else(body) => Exec(body, st)
  }

  function ExecWhile(cond: Expr, body: Block, rounds: nat, st: State): State
    decreases body, 1, rounds
  {
    if Holds(cond, st) && rounds > 0 then ExecWhile(cond, body, rounds - 1, Exec(body, st)) else st
  }

  function ExecFor(name: string, a: int, b: int, body: Block, st: State): State
    decreases body, 1, b - a
  {
    if a >= b then st
    else ExecFor(name, a + 1, b, body, Exec(body, st.(env := SetVar(st.env, name, Int(a)))))
  }

  // ---- the trees the interpreter reads ----

  /** A condition is cut at the first colon of its header line. */
  predicate FormedCond(cond: Expr) {
    Formed(cond) && ':' !in PyExpr.Print(cond) && |PyExpr.Print(cond)| <= ARG_MAX
  }

  predicate IsIdent(name: string) {
    name != "" && IsAlpha(name[0]) && forall i | 0 <= i < |name| :: IsAlnum(name[i])
  }

  /** A variable is bound under at most 31 characters of its name. */
  predicate IsVar(name: string) {
    IsIdent(name) && |name| <= VAR_MAX
  }

  /** An assignment must not read as another statement: note that every name that begins with
      "else" is taken for an `else` line. */
  predicate Bindable(name: string) {
    IsIdent(name) && name !in {"if", "elif", "while", "for"} && !("else" <= name)
  }

  predicate Assignable(name: string) {
    Bindable(name) && |name| <= VAR_MAX
  }

  /** The raw text of `print` is cut at every comma; `pad` blanks stand before the first argument. */
  predicate FormedArgs(args: Args, pad: nat) {
    && Formed(args.e) && ',' !in PyExpr.Print(args.e) && pad + |PyExpr.Print(args.e)| <= PART_MAX
    && (args.More? ==> FormedArgs(args.rest, 1))
  }

  /** The iterable text of a `for` header and the first of two bounds are copied into buffers. */
  predicate FormedRange(r: Range) {
    |"range(" + RangeArgs(r) + ")"| <= PART_MAX && (r.FromTo? ==> |Itoa(r.lo)| <= RANGE_MAX)
  }

  predicate FormedBlock(b: Block) {
    match b
    case Nil => true
    case Seq(s, tail) => FormedStmt(s) && FormedBlock(tail)
  }

  predicate FormedStmt(s: Stmt) {
    match s
    case Skip(line) => Idle(line)
    case Assign(name, e) => Assignable(name) && Formed(e)
    case Print(args) => FormedArgs(args, 0) && Depth(ArgsText(args), 0) == 0 && |ArgsText(args)| <= ARG_MAX
    case If(cond, body, chain) => FormedCond(cond) && FormedBlock(body) && FormedChain(chain)
    case While(cond, body) => FormedCond(cond) && FormedBlock(body)
    case For(name, r, body) => IsVar(name) && FormedRange(r) && FormedBlock(body)
  }

  predicate FormedChain(c: Chain) {
    match c
    case NoElse => true
    case Elif(cond, body, chain) => FormedCond(cond) && FormedBlock(body) && FormedChain(chain)
    case Else(body) => FormedBlock(body)
  }
}
