/** What expressions and lines compute, in plain arithmetic and on plain texts: each operator of the evaluator, the
    built-in functions, variables and output. */
module PyValues {
  import opened CText
  import opened TextFacts
  import opened PyExpr
  import opened PyBlock
  import opened PyRoundTrip
  import opened PyLayout
  import opened PyBlockProof
  import P = PyProgram

  /** The value of a printed expression. */
  function ValueOf(e: Expr, env: Env): PyVal {
    Eval(Print(e), env).0
  }

  function AsText(v: PyVal): string {
    if v.kind == IntVal then Itoa(v.ival) else v.sval
  }

  lemma ValueIsMeaning(e: Expr, env: Env)
    requires Formed(e)
    ensures Eval(Print(e), env) == (Meaning(e, env), "")
  {
    hide Eval, Meaning, Formed, Print;
    EvalWhole(e, env);
  }

  /** Two operands with an operator and blanks between them. */
  function Joined(l: Expr, word: string, r: Expr): string {
    Print(l) + word + Print(r)
  }

  /** The words `and` and `or` are read with the blank behind them. */
  function Gap(op: Op): string {
    if OpLevel(op) == 5 then "" else " "
  }

  lemma BinEval(op: Op, l: Expr, r: Expr, word: string, env: Env)
    requires Formed(l) && Formed(r) && word == " " + Spell(op) + Gap(op)
    requires Level(l) <= (if OpLevel(op) == 3 then 2 else OpLevel(op)) && Level(r) < OpLevel(op)
    ensures Eval(Joined(l, word, r), env) == (Combine(op, ValueOf(l, env), ValueOf(r, env)), "")
  {
    hide Eval, Meaning, Print, Combine;
    var e := Bin(op, l, r, " ", Gap(op));
    assert Formed(e) by {
      BlankSpace();
      BlankNothing();
    }
    ValueIsMeaning(l, env);
    ValueIsMeaning(r, env);
    ValueIsMeaning(e, env);
    MeaningBin(e, env);
    PrintBin(e, "", "");
    JoinedText(op, l, r, word);
  }

  lemma JoinedText(op: Op, l: Expr, r: Expr, word: string)
    requires word == " " + Spell(op) + Gap(op)
    ensures Print(Bin(op, l, r, " ", Gap(op))) == Joined(l, word, r)
  {
    hide Spell;
  }

  lemma WordIs(op: Op, word: string)
    requires op == Eq ==> word == " == "
    requires op == Ne ==> word == " != "
    requires op == Le ==> word == " <= "
    requires op == Ge ==> word == " >= "
    requires op == Lt ==> word == " < "
    requires op == Gt ==> word == " > "
    requires op == Times ==> word == " * "
    requires op == Over ==> word == " / "
    requires op == Rem ==> word == " % "
    requires op == Plus ==> word == " + "
    requires op == Minus ==> word == " - "
    requires op == And ==> word == " and "
    requires op == Or ==> word == " or "
    ensures word == " " + Spell(op) + Gap(op)
  {
  }

  // ---- comparisons ----

  predicate IsSum(e: Expr) {
    Formed(e) && Level(e) <= 2
  }

  predicate IsTruth(v: PyVal, holds: bool) {
    v.kind == IntVal && v.ival == if holds then 1 else 0
  }

  /** Order compares the numbers of both sides; a text counts as the number 0 there. */
  lemma OrderIs(l: Expr, r: Expr, env: Env)
    requires IsSum(l) && IsSum(r)
    ensures var v, w := ValueOf(l, env), ValueOf(r, env);
      && IsTruth(Eval(Joined(l, " < ", r), env).0, v.ival < w.ival)
      && IsTruth(Eval(Joined(l, " > ", r), env).0, v.ival > w.ival)
      && IsTruth(Eval(Joined(l, " <= ", r), env).0, v.ival <= w.ival)
      && IsTruth(Eval(Joined(l, " >= ", r), env).0, v.ival >= w.ival)
  {
    hide Eval, ValueOf, Joined, Formed;
    WordIs(Lt, " < "); WordIs(Gt, " > "); WordIs(Le, " <= "); WordIs(Ge, " >= ");
    BinEval(Lt, l, r, " < ", env);
    BinEval(Gt, l, r, " > ", env);
    BinEval(Le, l, r, " <= ", env);
    BinEval(Ge, l, r, " >= ", env);
  }

  /** Equality compares texts when the left side is one, and numbers otherwise. */
  lemma EqualityIs(l: Expr, r: Expr, env: Env)
    requires IsSum(l) && IsSum(r)
    ensures var v, w := ValueOf(l, env), ValueOf(r, env);
      var same := if v.kind == StrVal then v.sval == w.sval else v.ival == w.ival;
      && IsTruth(Eval(Joined(l, " == ", r), env).0, same)
      && IsTruth(Eval(Joined(l, " != ", r), env).0, !same)
  {
    hide Eval, ValueOf, Joined, Formed;
    WordIs(Eq, " == "); WordIs(Ne, " != ");
    BinEval(Eq, l, r, " == ", env);
    BinEval(Ne, l, r, " != ", env);
  }

  /** On two number literals: the values of `a < b` and so on, for all integers. */
  lemma NumbersCompare(a: int, b: int, env: Env)
    ensures Eval(Itoa(a) + " < " + Itoa(b), env).0 == Int(if a < b then 1 else 0)
    ensures Eval(Itoa(a) + " > " + Itoa(b), env).0 == Int(if a > b then 1 else 0)
    ensures Eval(Itoa(a) + " <= " + Itoa(b), env).0 == Int(if a <= b then 1 else 0)
    ensures Eval(Itoa(a) + " >= " + Itoa(b), env).0 == Int(if a >= b then 1 else 0)
    ensures Eval(Itoa(a) + " == " + Itoa(b), env).0 == Int(if a == b then 1 else 0)
    ensures Eval(Itoa(a) + " != " + Itoa(b), env).0 == Int(if a != b then 1 else 0)
  {
    hide Eval, ValueOf, Itoa;
    NumValue(a, env);
    NumValue(b, env);
    WordIs(Lt, " < "); WordIs(Gt, " > "); WordIs(Le, " <= "); WordIs(Ge, " >= "); WordIs(Eq, " == "); WordIs(Ne, " != ");
    BinEval(Lt, Num(a), Num(b), " < ", env);
    BinEval(Gt, Num(a), Num(b), " > ", env);
    BinEval(Le, Num(a), Num(b), " <= ", env);
    BinEval(Ge, Num(a), Num(b), " >= ", env);
    BinEval(Eq, Num(a), Num(b), " == ", env);
    BinEval(Ne, Num(a), Num(b), " != ", env);
  }

  lemma NumValue(n: int, env: Env)
    ensures ValueOf(Num(n), env) == Int(n) == PyVal(IntVal, n, "")
    ensures Formed(Num(n)) && Level(Num(n)) == 0 && Print(Num(n)) == Itoa(n)
  {
    hide Eval, Itoa;
    ValueIsMeaning(Num(n), env);
  }

  // ---- arithmetic ----

  predicate IsFactor(e: Expr) {
    Formed(e) && Level(e) == 0
  }

  predicate IsProduct(e: Expr) {
    Formed(e) && Level(e) <= 1
  }

  /** Two numbers multiply; anything else leaves the left side. */
  lemma ProductIs(l: Expr, r: Expr, env: Env)
    requires IsProduct(l) && IsFactor(r)
    ensures var v, w := ValueOf(l, env), ValueOf(r, env);
      var u := Eval(Joined(l, " * ", r), env).0;
      && (v.kind == IntVal && w.kind == IntVal ==> u.kind == IntVal && u.ival == v.ival * w.ival)
      && (v.kind != IntVal || w.kind != IntVal ==> u == v)
  {
    hide Eval, ValueOf, Joined, Formed;
    WordIs(Times, " * ");
    BinEval(Times, l, r, " * ", env);
  }

  /** Quotient q and remainder m of two numbers: v == w * q + m with |m| < |w|, m of the sign of v. A zero divisor, or
      anything but two numbers, leaves the left side. */
  lemma DivisionIs(l: Expr, r: Expr, env: Env)
    requires IsProduct(l) && IsFactor(r)
    ensures var v, w := ValueOf(l, env), ValueOf(r, env);
      var q, m := Eval(Joined(l, " / ", r), env).0, Eval(Joined(l, " % ", r), env).0;
      && (v.kind == IntVal && w.kind == IntVal && w.ival != 0 ==>
            q.kind == IntVal && m.kind == IntVal && Divided(v.ival, w.ival, q.ival, m.ival))
      && (v.kind != IntVal || w.kind != IntVal || w.ival == 0 ==> q == v && m == v)
  {
    hide Eval, ValueOf, Joined, Formed, CDiv, CRem, Divided;
    WordIs(Over, " / "); WordIs(Rem, " % ");
    BinEval(Over, l, r, " / ", env);
    BinEval(Rem, l, r, " % ", env);
    var v, w := ValueOf(l, env), ValueOf(r, env);
    if w.ival != 0 {
      Truncates(v.ival, w.ival);
    }
  }

  predicate Divided(a: int, b: int, q: int, m: int) {
    && a == b * q + m
    && -(if b < 0 then -b else b) < m < (if b < 0 then -b else b)
    && (m > 0 ==> a > 0) && (m < 0 ==> a < 0)
  }

  lemma Truncates(a: int, b: int)
    requires b != 0
    ensures Divided(a, b, CDiv(a, b), CRem(a, b))
  {
    hide Divided, CDiv;
    DivMod(Abs(a), Abs(b));
    QuotientTimes(a, b);
    Remainders(a, b, CDiv(a, b), b * CDiv(a, b), Abs(b) * (Abs(a) / Abs(b)));
  }

  lemma QuotientTimes(a: int, b: int)
    requires b != 0
    ensures b * CDiv(a, b) == if a < 0 then -(Abs(b) * (Abs(a) / Abs(b))) else Abs(b) * (Abs(a) / Abs(b))
  {
    Signs(Abs(b), Abs(a) / Abs(b));
  }

  lemma Remainders(a: int, b: int, q: int, bq: int, p: int)
    requires b != 0 && bq == b * q && bq == (if a < 0 then -p else p) && 0 <= p <= Abs(a) < p + Abs(b)
    ensures Divided(a, b, q, a - bq)
  {
  }

  lemma Signs(y: int, k: int)
    ensures (-y) * k == -(y * k) && y * (-k) == -(y * k) && (-y) * (-k) == y * k
  {
  }

  lemma DivMod(x: nat, y: nat)
    requires y > 0
    ensures x == y * (x / y) + x % y && 0 <= x % y < y && 0 <= y * (x / y) <= x < y * (x / y) + y
  {
  }

  /** That determines quotient and remainder. */
  lemma DividedOnce(a: int, b: int, q: int, m: int, q': int, m': int)
    requires b != 0 && Divided(a, b, q, m) && Divided(a, b, q', m')
    ensures q == q' && m == m'
  {
    var y := if b < 0 then -b else b;
    assert b * (q - q') == m' - m;
    if q != q' {
      MultipleIsLarge(b, q - q');
    }
  }

  lemma MultipleIsLarge(b: int, k: int)
    requires b != 0 && k != 0
    ensures b * k >= (if b < 0 then -b else b) || b * k <= -(if b < 0 then -b else b)
  {
  }

  /** Two numbers add and subtract. + with a text on either side puts the left one in front of the right one; - with a
      text leaves the left side. */
  lemma SumIs(l: Expr, r: Expr, env: Env)
    requires IsSum(l) && IsProduct(r)
    ensures var v, w := ValueOf(l, env), ValueOf(r, env);
      var s, d := Eval(Joined(l, " + ", r), env).0, Eval(Joined(l, " - ", r), env).0;
      && (v.kind == IntVal && w.kind == IntVal ==>
            s.kind == IntVal && s.ival == v.ival + w.ival && d.kind == IntVal && d.ival == v.ival - w.ival)
      && (v.kind == StrVal || (v.kind == IntVal && w.kind != IntVal) ==> s.kind == StrVal && s.sval == AsText(v) + AsText(w))
      && (v.kind != IntVal || w.kind != IntVal ==> d == v)
  {
    hide Eval, ValueOf, Joined, Formed, Itoa;
    WordIs(Plus, " + "); WordIs(Minus, " - ");
    BinEval(Plus, l, r, " + ", env);
    BinEval(Minus, l, r, " - ", env);
  }

  /** On literals. */
  lemma NumbersCompute(a: int, b: int, env: Env)
    ensures Eval(Itoa(a) + " * " + Itoa(b), env).0 == Int(a * b)
    ensures Eval(Itoa(a) + " + " + Itoa(b), env).0 == Int(a + b)
    ensures Eval(Itoa(a) + " - " + Itoa(b), env).0 == Int(a - b)
  {
    hide Eval, ValueOf, Itoa;
    NumValue(a, env);
    NumValue(b, env);
    WordIs(Times, " * "); WordIs(Plus, " + "); WordIs(Minus, " - ");
    BinEval(Times, Num(a), Num(b), " * ", env);
    BinEval(Plus, Num(a), Num(b), " + ", env);
    BinEval(Minus, Num(a), Num(b), " - ", env);
  }

  lemma TextsJoin(q: char, a: string, b: string, env: Env)
    requires (q == '"' || q == '\'') && q !in a && q !in b && |a| <= STR_MAX && |b| <= STR_MAX
    ensures Eval([q] + a + [q] + " + " + ([q] + b + [q]), env).0 == PyVal(StrVal, 0, a + b)
    ensures Eval([q] + a + [q] + " == " + ([q] + b + [q]), env).0.ival == if a == b then 1 else 0
    ensures Eval([q] + a + [q] + " != " + ([q] + b + [q]), env).0.ival == if a != b then 1 else 0
  {
    hide Eval, ValueOf;
    TextValue(q, a, env);
    TextValue(q, b, env);
    WordIs(Plus, " + "); WordIs(Eq, " == "); WordIs(Ne, " != ");
    BinEval(Plus, Str(q, a), Str(q, b), " + ", env);
    BinEval(Eq, Str(q, a), Str(q, b), " == ", env);
    BinEval(Ne, Str(q, a), Str(q, b), " != ", env);
  }

  lemma TextValue(q: char, a: string, env: Env)
    requires (q == '"' || q == '\'') && q !in a && |a| <= STR_MAX
    ensures ValueOf(Str(q, a), env) == PyVal(StrVal, 0, a) && Formed(Str(q, a)) && Print(Str(q, a)) == [q] + a + [q]
  {
    hide Eval;
    ValueIsMeaning(Str(q, a), env);
  }

  // ---- truth ----

  predicate IsNegation(e: Expr) {
    Formed(e) && Level(e) <= 4
  }

  /** `and` and `or` give 1 exactly when both or one of the sides is true, that is, has a number other than 0; no text is. */
  lemma TruthIs(l: Expr, r: Expr, env: Env)
    requires Formed(l) && IsNegation(r)
    ensures var v, w := ValueOf(l, env), ValueOf(r, env);
      && IsTruth(Eval(Joined(l, " and ", r), env).0, v.ival != 0 && w.ival != 0)
      && IsTruth(Eval(Joined(l, " or ", r), env).0, v.ival != 0 || w.ival != 0)
  {
    hide Eval, ValueOf, Joined, Formed;
    WordIs(And, " and "); WordIs(Or, " or ");
    assert Level(l) <= 5;
    BinEval(And, l, r, " and ", env);
    BinEval(Or, l, r, " or ", env);
  }

  /** `not` gives 1 exactly when its operand is not. */
  lemma NotIs(e: Expr, env: Env)
    requires Formed(e) && Level(e) <= 3
    ensures IsTruth(Eval("not " + Print(e), env).0, ValueOf(e, env).ival == 0)
  {
    hide Eval, Meaning, Print;
    var n := Not(e, "");
    assert Formed(n) by { BlankNothing(); }
    ValueIsMeaning(e, env);
    ValueIsMeaning(n, env);
    NotText(e);
    assert Meaning(n, env) == NotOp(Meaning(e, env)) by { NotMeaning(e, env); }
  }

  lemma NotText(e: Expr)
    ensures Print(Not(e, "")) == "not " + Print(e)
  {
  }

  lemma NotMeaning(e: Expr, env: Env)
    ensures Meaning(Not(e, ""), env) == NotOp(Meaning(e, env))
  {
  }

  // ---- built-in functions ----

  predicate Callable(e: Expr) {
    Formed(e) && Depth(Print(e), 0) == 0 && |Print(e)| <= ARG_MAX
  }

  lemma CallEval(fn: string, e: Expr, env: Env)
    requires IsName(fn) && fn != "input" && Callable(e)
    ensures Eval(fn + "(" + Print(e) + ")", env).0 == Apply(fn, Print(e), ValueOf(e, env))
  {
    hide Eval, Meaning, Print, Depth, Apply;
    var c := Call(fn, e, "", "", "");
    CallPieces(fn, e, env);
    assert Formed(c) by { BlankNothing(); }
    ValueIsMeaning(e, env);
    ValueIsMeaning(c, env);
  }

  lemma CallPieces(fn: string, e: Expr, env: Env)
    ensures var c := Call(fn, e, "", "", "");
      && Print(c) == fn + "(" + Print(e) + ")" && ArgText(c) == Print(e)
      && Meaning(c, env) == Apply(fn, Print(e), Meaning(e, env))
  {
    hide Apply;
    var c := Call(fn, e, "", "", "");
    assert ArgText(c) == Print(e);
    assert Print(c) == fn + "" + "(" + "" + Print(e) + "" + ")";
  }

  /** len counts the characters of a text and is 0 for anything else; str gives the text of a value; int reads the
      digits of a text and keeps a number. Any other name gives nothing. */
  lemma BuiltInsAre(e: Expr, fn: string, env: Env)
    requires Callable(e) && IsName(fn) && fn !in {"len", "str", "int", "range", "input"}
    ensures var v := ValueOf(e, env);
      && Eval("len" + "(" + Print(e) + ")", env).0 == Int(if v.kind == StrVal then |v.sval| else 0)
      && Eval("str" + "(" + Print(e) + ")", env).0 == PyVal(StrVal, 0, AsText(v))
      && Eval("int" + "(" + Print(e) + ")", env).0 == Int(if v.kind == StrVal then Atoi(v.sval) else v.ival)
      && Eval(fn + "(" + Print(e) + ")", env).0 == PyVal(NoneVal, 0, "")
  {
    hide Eval, ValueOf, Print, Formed, Depth, Itoa, Atoi;
    NamesAre();
    CallEval("len", e, env);
    CallEval("str", e, env);
    CallEval("int", e, env);
    CallEval(fn, e, env);
  }

  lemma NamesAre()
    ensures IsName("len") && IsName("str") && IsName("int")
  {
  }

  /** int on a text of digits, with or without a minus sign and spaces in front, is the number they stand for. */
  lemma IntReads(t: string, rest: string, minus: bool)
    requires AllDigits(t) && (rest != "" ==> !('0' <= rest[0] <= '9')) && (t == "" ==> rest == "")
    ensures Atoi((if minus then "-" else "") + t + rest) == if minus then -Decimal(t) else Decimal(t)
    ensures Atoi(" " + t) == Atoi(t)
  {
    hide ReadNum, Decimal, Atoi;
    AtoiSpaced(t);
    ReadNumIs(t, rest);
    var u := t + rest;
    assert u != "" ==> u[0] == t[0];
    if minus {
      AtoiMinus(u);
      assert "-" + t + rest == "-" + u;
    } else {
      AtoiPlain(u);
      assert "" + t + rest == u;
    }
  }

  lemma AtoiMinus(u: string)
    ensures Atoi("-" + u) == -ReadNum(u, 0).0
  {
    hide ReadNum;
    assert ("-" + u)[0] == '-' && ("-" + u)[1..] == u;
  }

  lemma AtoiPlain(u: string)
    requires u != "" ==> u[0] != ' ' && u[0] != '-'
    ensures Atoi(u) == ReadNum(u, 0).0
  {
    hide ReadNum;
  }

  // ---- variables ----

  /** A known or new variable has the value assigned and no other changes; behind 32 of them a new one is dropped. */
  lemma VariablesAre(env: Env, name: string, v: PyVal, other: string)
    ensures name in env || |env| < 32 ==> Lookup(name, SetVar(env, name, v)) == v
    ensures name !in env && |env| >= 32 ==> SetVar(env, name, v) == env
    ensures other != name ==> Lookup(other, SetVar(env, name, v)) == Lookup(other, env)
    ensures other !in env ==> Lookup(other, env) == Int(0)
  {
  }

  // ---- output ----

  /** print shows a number in digits, a text as it stands and nothing for nothing, and ends the line. */
  lemma PrintIs(e: Expr, line: string, n: nat, st: State)
    requires Callable(e) && ',' !in Print(e) && |Print(e)| <= PART_MAX && Shows(line, n, "print(" + Print(e) + ")")
    ensures var v := ValueOf(e, st.env);
      RunLine(line, st) == st.(out := st.out + (if v.kind == NoneVal then "" else AsText(v)) + "\n")
  {
    hide Eval, Print, Formed, Depth, Itoa, RunLine, Shows, PrintArgs;
    PrintTextRead(Print(e), line, n, st);
    OnePart(Print(e), st.env);
  }

  // ---- loops ----

  /** A loop whose condition never fails stops after 100000 rounds, and a counting one after so many. */
  lemma {:induction false} CountsUp(x: string, rounds: nat, k: int, st: State)
    requires x in st.env && st.env[x] == Int(k)
    ensures P.ExecWhile(Num(1), Counting(x), rounds, st) == st.(env := st.env[x := Int(k + rounds)])
    decreases rounds
  {
    hide P.Exec;
    if rounds == 0 {
      assert st.env[x := Int(k)] == st.env;
    } else {
      var st1 := st.(env := st.env[x := Int(k + 1)]);
      CountsOnce(x, k, st);
      CountsUp(x, rounds - 1, k + 1, st1);
      assert st.env[x := Int(k + 1)][x := Int(k + rounds)] == st.env[x := Int(k + rounds)];
    }
  }

  /** x = x + 1 */
  function Counting(x: string): P.Block {
    P.Seq(P.Assign(x, Bin(Plus, Var(x), Num(1), " ", " ")), P.Nil)
  }

  lemma CountsOnce(x: string, k: int, st: State)
    requires x in st.env && st.env[x] == Int(k)
    ensures P.Exec(Counting(x), st) == st.(env := st.env[x := Int(k + 1)])
  {
    var e := Bin(Plus, Var(x), Num(1), " ", " ");
    assert Meaning(e.left, st.env) == Int(k) && Meaning(e.right, st.env) == Int(1);
    assert Meaning(e, st.env) == Int(k + 1);
    var b := Counting(x);
    assert P.Exec(b, st) == P.Exec(b.tail, P.ExecStmt(b.head, st));
  }

  lemma EndlessLoopStops(x: string, st: State)
    requires x in st.env && st.env[x] == Int(0)
    ensures P.ExecStmt(P.While(Num(1), Counting(x)), st) == st.(env := st.env[x := Int(100000)])
  {
    hide P.ExecWhile, Counting;
    CountsUp(x, MAX_ROUNDS, 0, st);
  }

  /** The script: while 1, x = x + 1. */
  lemma EndlessScript(ind: string, unit: string, st: State)
    requires AllBlank(ind) && AllBlank(unit) && unit != "" && "x" in st.env && st.env["x"] == Int(0)
    ensures var lines := P.Lines(P.Seq(P.While(Num(1), Counting("x")), P.Nil), ind, unit);
      RunBlock(lines, 0, |lines|, st) == st.(env := st.env["x" := Int(100000)])
  {
    hide RunBlock, P.Lines, P.ExecStmt, Counting;
    var s := P.While(Num(1), Counting("x"));
    var b := P.Seq(s, P.Nil);
    CountingFormed();
    ProgramRuns(b, ind, unit, st);
    EndlessLoopStops("x", st);
    assert P.Exec(b, st) == P.Exec(P.Nil, P.ExecStmt(s, st));
  }

  lemma CountingFormed()
    ensures P.FormedBlock(P.Seq(P.While(Num(1), Counting("x")), P.Nil))
  {
    hide Itoa;
    assert Itoa(1) == "1" by { One(); }
    assert AllBlank(" ") by { BlankSpace(); }
    assert P.FormedCond(Num(1));
  }

  lemma One()
    ensures Itoa(1) == "1"
  {
  }
}
