/** Expressions of the AurionPython interpreter: the values, the text evaluator as the recursive
    functions its loops compute, and the structural meaning of an expression tree. */
module PyExpr {
  import opened CText
  import opened Wrappers

  datatype Kind = IntVal | StrVal | NoneVal

  /** A value carries all its fields whatever its kind; truth tests and comparisons read `ival`
      even of strings. */
  datatype PyVal = PyVal(kind: Kind, ival: int, sval: string)

  function Int(n: int): PyVal {
    PyVal(IntVal, n, "")
  }

  function Truth(b: bool): int {
    if b then 1 else 0
  }

  type Env = map<string, PyVal>

  // ---- operators on values ----

  function Abs(n: int): nat {
    if n < 0 then -n else n
  }

  /** C's division and remainder truncate toward zero. */
  function CDiv(a: int, b: int): int
    requires b != 0
  {
    if (a < 0) != (b < 0) then -(Abs(a) / Abs(b)) else Abs(a) / Abs(b)
  }

  function CRem(a: int, b: int): int
    requires b != 0
  {
    a - b * CDiv(a, b)
  }

  datatype Op = Times | Over | Rem | Plus | Minus | Eq | Ne | Le | Ge | Lt | Gt | And | Or

  function MulOp(op: Op, l: PyVal, r: PyVal): PyVal {
    if l.kind != IntVal || r.kind != IntVal then l
    else match op
      case Times => l.(ival := l.ival * r.ival)
      case Over => if r.ival == 0 then l else l.(ival := CDiv(l.ival, r.ival))
      case _ => if r.ival == 0 then l else l.(ival := CRem(l.ival, r.ival))
  }

  function Text(v: PyVal): string {
    if v.kind == IntVal then Itoa(v.ival) else v.sval
  }

  function AddOp(op: Op, l: PyVal, r: PyVal): PyVal {
    if l.kind == IntVal && r.kind == IntVal then
      l.(ival := if op == Plus then l.ival + r.ival else l.ival - r.ival)
    else if op == Plus then
      PyVal(if l.kind == IntVal then StrVal else l.kind, l.ival, Text(l) + Text(r))
    else l
  }

  function CmpOp(op: Op, l: PyVal, r: PyVal): PyVal {
    var same := if l.kind == StrVal then l.sval == r.sval else l.ival == r.ival;
    var holds := match op
      case Eq => same
      case Ne => !same
      case Le => l.ival <= r.ival
      case Ge => l.ival >= r.ival
      case Lt => l.ival < r.ival
      case _ => l.ival > r.ival;
    PyVal(IntVal, Truth(holds), l.sval)
  }

  function BoolOp(op: Op, l: PyVal, r: PyVal): PyVal {
    var a, b := l.ival != 0, r.ival != 0;
    PyVal(IntVal, Truth(if op == And then a && b else a || b), l.sval)
  }

  function NotOp(v: PyVal): PyVal {
    PyVal(IntVal, Truth(v.ival == 0), v.sval)
  }

  function Atoi(t: string): int {
    var p := SkipSpaces(t);
    if p != "" && p[0] == '-' then -ReadNum(p[1..], 0).0 else ReadNum(p, 0).0
  }

  /** A call of a built-in: `text` is the raw argument text, `a` its value. */
  function Apply(fn: string, text: string, a: PyVal): PyVal {
    if fn == "len" then Int(if a.kind == StrVal then |a.sval| else 0)
    else if fn == "str" then PyVal(StrVal, 0, Text(a))
    else if fn == "int" then Int(if a.kind == StrVal then Atoi(a.sval) else a.ival)
    else if fn == "range" then PyVal(StrVal, 0, [RANGE_MARK] + text)
    else PyVal(NoneVal, 0, "")
  }

  const RANGE_MARK: char := 1 as char
  const NAME_MAX := 63
  const STR_MAX := 127
  const ARG_MAX := 255

  function Lookup(name: string, env: Env): PyVal {
    if name in env then env[name] else Int(0)
  }

  // ---- the text evaluator ----

  /** Length of the run of identifier characters at the front of t, at most max. */
  function IdentLen(t: string, max: nat): (n: nat)
    ensures n <= |t| && n <= max
    ensures forall i | 0 <= i < n :: IsAlnum(t[i])
  {
    if max > 0 && t != "" && IsAlnum(t[0]) then 1 + IdentLen(t[1..], max - 1) else 0
  }

  /** Length of the string body before its closing quote, at most max. */
  function BodyLen(t: string, quote: char, max: nat): (n: nat)
    ensures n <= |t| && n <= max
  {
    if max > 0 && t != "" && t[0] != quote then 1 + BodyLen(t[1..], quote, max - 1) else 0
  }

  /** The nesting depth after one more character. */
  function Nest(c: char, depth: int): int {
    if c == '(' then depth + 1 else if c == ')' then depth - 1 else depth
  }

  /** Index of the parenthesis that brings the nesting depth to zero, or the end of the text. */
  function Matching(t: string, depth: nat): (k: nat)
    requires depth > 0
    ensures k <= |t|
  {
    if t == "" || Nest(t[0], depth) == 0 then 0 else 1 + Matching(t[1..], Nest(t[0], depth))
  }

  function Quoted(p: string): (r: (PyVal, string))
    requires p != ""
    ensures |r.1| < |p|
  {
    var n := BodyLen(p[1..], p[0], STR_MAX);
    var q := p[1 + n..];
    (PyVal(StrVal, 0, p[1..1 + n]), if q != "" && q[0] == p[0] then q[1..] else q)
  }

  /** What follows a call whose opening parenthesis starts q, and the raw argument text. */
  function CallArg(q: string): (r: (string, string))
    requires q != ""
    ensures |r.0| < |q| && |r.1| < |q|
  {
    var k := Matching(q[1..], 1);
    (Take(q[1..1 + k], ARG_MAX), if 1 + k < |q| then q[2 + k..] else "")
  }

  function Primary(t: string, env: Env): (r: (PyVal, string))
    ensures |r.1| <= |t|
    decreases |t|, 1
  {
    var p := SkipWs(t);
    if p == "" then (PyVal(NoneVal, 0, ""), p)
    else if p[0] == '"' || p[0] == '\'' then Quoted(p)
    else if p[0] == '-' && |p| > 1 && IsDigit(p[1]) then
      var (n, q) := ReadNum(p[1..], 0);
      (Int(-n), q)
    else if IsDigit(p[0]) then
      var (n, q) := ReadNum(p, 0);
      (Int(n), q)
    else if IsAlpha(p[0]) then Named(p, env)
    else (PyVal(NoneVal, 0, ""), p)
  }

  /** An identifier: a call when a parenthesis follows, else a variable. */
  function Named(p: string, env: Env): (r: (PyVal, string))
    ensures |r.1| <= |p|
    decreases |p|, 0
  {
    var n := IdentLen(p, NAME_MAX);
    var q := SkipWs(p[n..]);
    if q != "" && q[0] == '(' then
      var (arg, rest) := CallArg(q);
      (Apply(p[..n], arg, Eval(arg, env).0), rest)
    else (Lookup(p[..n], env), q)
  }

  predicate AtOp(t: string, level: nat) {
    t != "" && if level == 1 then t[0] in "*/%" else t[0] in "+-"
  }

  function OpOf(c: char): Op {
    if c == '*' then Times else if c == '/' then Over else if c == '%' then Rem
    else if c == '+' then Plus else Minus
  }

  function MulDiv(t: string, env: Env): (r: (PyVal, string))
    ensures |r.1| <= |t|
    decreases |t|, 3
  {
    var (l, q) := Primary(t, env);
    MulLoop(l, SkipWs(q), env)
  }

  function MulLoop(l: PyVal, t: string, env: Env): (r: (PyVal, string))
    ensures |r.1| <= |t|
    decreases |t|, 2
  {
    if AtOp(t, 1) then
      var (v, q) := Primary(t[1..], env);
      MulLoop(MulOp(OpOf(t[0]), l, v), SkipWs(q), env)
    else (l, t)
  }

  function AddSub(t: string, env: Env): (r: (PyVal, string))
    ensures |r.1| <= |t|
    decreases |t|, 5
  {
    var (l, q) := MulDiv(t, env);
    AddLoop(l, SkipWs(q), env)
  }

  function AddLoop(l: PyVal, t: string, env: Env): (r: (PyVal, string))
    ensures |r.1| <= |t|
    decreases |t|, 4
  {
    if AtOp(t, 2) then
      var (v, q) := MulDiv(t[1..], env);
      AddLoop(AddOp(OpOf(t[0]), l, v), SkipWs(q), env)
    else (l, t)
  }

  /** The comparison at the front of the text: two-character operators win. */
  function CmpAt(t: string): (r: Option<Op>)
    ensures r.Some? ==> |Spell(r.value)| <= |t|
  {
    if "==" <= t then Some(Eq) else if "!=" <= t then Some(Ne)
    else if "<=" <= t then Some(Le) else if ">=" <= t then Some(Ge)
    else if "<" <= t then Some(Lt) else if ">" <= t then Some(Gt)
    else None
  }

  function BoolAt(t: string): (r: Option<Op>)
    ensures r.Some? ==> |Spell(r.value)| <= |t|
  {
    if "and " <= t then Some(And) else if "or " <= t then Some(Or) else None
  }

  function Cmp(t: string, env: Env): (r: (PyVal, string))
    ensures |r.1| <= |t|
    decreases |t|, 6
  {
    var (l, q) := AddSub(t, env);
    var cur := SkipWs(q);
    match CmpAt(cur)
    case None => (l, cur)
    case Some(op) =>
      var (v, end) := AddSub(cur[|Spell(op)|..], env);
      (CmpOp(op, l, v), end)
  }

  function NotLevel(t: string, env: Env): (r: (PyVal, string))
    ensures |r.1| <= |t|
    decreases |t|, 7
  {
    var p := SkipWs(t);
    if "not " <= p then
      var (v, q) := Cmp(p[4..], env);
      (NotOp(v), q)
    else Cmp(p, env)
  }

  function BoolLoop(l: PyVal, t: string, env: Env): (r: (PyVal, string))
    ensures |r.1| <= |t|
    decreases |t|, 8
  {
    match BoolAt(t)
    case None => (l, t)
    case Some(op) =>
      var (v, q) := NotLevel(t[|Spell(op)|..], env);
      BoolLoop(BoolOp(op, l, v), SkipWs(q), env)
  }

  function Eval(t: string, env: Env): (r: (PyVal, string))
    ensures |r.1| <= |t|
    decreases |t|, 9
  {
    var (l, q) := NotLevel(t, env);
    BoolLoop(l, SkipWs(q), env)
  }

  // ---- expression trees ----

  /** Trees carry their layout: `before`, `after`, `gap`, `lead`, `trail` are arbitrary blanks. */
  datatype Expr =
    | Num(n: int)
    | Str(quote: char, body: string)
    | Var(name: string)
    | Call(fn: string, arg: Expr, gap: string, lead: string, trail: string)
    | Bin(op: Op, left: Expr, right: Expr, before: string, after: string)
    | Not(e: Expr, after: string)

  function Spell(op: Op): (t: string)
    ensures t != ""
  {
    match op
    case Times => "*" case Over => "/" case Rem => "%"
    case Plus => "+" case Minus => "-"
    case Eq => "==" case Ne => "!=" case Le => "<=" case Ge => ">=" case Lt => "<" case Gt => ">"
    case And => "and " case Or => "or "
  }

  function OpLevel(op: Op): (level: nat)
    ensures 1 <= level <= 5 && level != 4
  {
    match op
    case Times => 1 case Over => 1 case Rem => 1
    case Plus => 2 case Minus => 2
    case And => 5 case Or => 5
    case _ => 3
  }

  function Level(e: Expr): nat {
    match e
    case Bin(op, _, _, _, _) => OpLevel(op)
    case Not(_, _) => 4
    case _ => 0
  }

  function Print(e: Expr): string {
    match e
    case Num(n) => Itoa(n)
    case Str(quote, body) => [quote] + body + [quote]
    case Var(name) => name
    case Call(fn, arg, gap, lead, trail) => fn + gap + "(" + lead + Print(arg) + trail + ")"
    case Bin(op, l, r, before, after) => Print(l) + before + Spell(op) + after + Print(r)
    case Not(x, after) => "not " + after + Print(x)
  }

  function ArgText(e: Expr): string
    requires e.Call?
  {
    e.lead + Print(e.arg) + e.trail
  }

  predicate IsName(t: string) {
    0 < |t| <= NAME_MAX && IsAlpha(t[0]) && (forall i | 0 <= i < |t| :: IsAlnum(t[i])) && t != "not"
  }

  /** Parentheses pair up inside t: no prefix closes more than it opens, and all are closed. */
  function Depth(t: string, d: int): int {
    if t == "" || d < 0 then d else Depth(t[1..], Nest(t[0], d))
  }

  /** The trees of the code's grammar. Level 0 is a primary, 1 a product, 2 a sum, 3 a comparison,
      4 a negation, 5 a conjunction or disjunction; each operand's level is below its operator's,
      but for the left operand of the left-associative levels. The text of an argument, literals
      included, closes every parenthesis it opens: the code counts them without looking at quotes. A call of
      input() reads the keyboard, which is not part of this model. */
  predicate Formed(e: Expr) {
    match e
    case Num(_) => true
    case Str(quote, body) => (quote == '"' || quote == '\'') && quote !in body && |body| <= STR_MAX
    case Var(name) => IsName(name)
    case Call(fn, arg, gap, lead, trail) =>
      && IsName(fn) && fn != "input" && Formed(arg)
      && AllBlank(gap) && AllBlank(lead) && AllBlank(trail)
      && Depth(ArgText(e), 0) == 0 && |ArgText(e)| <= ARG_MAX
    case Bin(op, l, r, before, after) =>
      && AllBlank(before) && AllBlank(after)
      && (OpLevel(op) == 5 ==> before != "")
      && Level(l) <= (if OpLevel(op) == 3 then 2 else OpLevel(op)) && Formed(l)
      && Level(r) < OpLevel(op) && Formed(r)
    case Not(x, after) => AllBlank(after) && Level(x) <= 3 && Formed(x)
  }

  predicate WellFormed(e: Expr, level: nat) {
    Level(e) <= level && Formed(e)
  }

  /** What a tree means, by structure alone. */
  function Meaning(e: Expr, env: Env): PyVal {
    match e
    case Num(n) => Int(n)
    case Str(_, body) => PyVal(StrVal, 0, body)
    case Var(name) => Lookup(name, env)
    case Call(fn, arg, _, _, _) => Apply(fn, ArgText(e), Meaning(arg, env))
    case Bin(op, l, r, _, _) => Combine(op, Meaning(l, env), Meaning(r, env))
    case Not(x, _) => NotOp(Meaning(x, env))
  }

  function Combine(op: Op, l: PyVal, r: PyVal): PyVal {
    match OpLevel(op)
    case 1 => MulOp(op, l, r)
    case 2 => AddOp(op, l, r)
    case 3 => CmpOp(op, l, r)
    case _ => BoolOp(op, l, r)
  }
}
