/** Evaluating a printed expression gives the meaning of the tree and stops where its text stops. */
module PyRoundTrip {
  import opened CText
  import opened PyExpr
  import opened Wrappers

  /** The text after an expression cannot be taken for a continuation of it at this level. */
  predicate Ends(rest: string, level: nat) {
    var c := SkipWs(rest);
    && (rest != "" ==> !IsAlnum(rest[0]))
    && (c != "" ==> c[0] != '(')
    && (level >= 1 ==> !AtOp(c, 1))
    && (level >= 2 ==> !AtOp(c, 2))
    && (level >= 3 ==> CmpAt(c).None?)
    && (level >= 5 ==> BoolAt(c).None?)
  }

  // ---- parentheses ----

  lemma {:induction false} DepthSplit(a: string, b: string, d: nat)
    requires Depth(a, d) >= 0
    ensures Depth(a + b, d) == Depth(b, Depth(a, d))
  {
    if a == "" {
      assert a + b == b;
    } else {
      assert (a + b)[1..] == a[1..] + b;
      var d' := Nest(a[0], d);
      if d' >= 0 {
        DepthSplit(a[1..], b, d');
      }
    }
  }

  lemma {:induction false} DepthShift(t: string, d: nat, k: nat)
    requires Depth(t, d) >= 0
    ensures Depth(t, d + k) == Depth(t, d) + k
  {
    if t != "" {
      var d' := Nest(t[0], d);
      if d' >= 0 {
        DepthShift(t[1..], d', k);
      }
    }
  }

  lemma {:induction false} DepthFlat(t: string, d: nat)
    requires forall i | 0 <= i < |t| :: t[i] != '(' && t[i] != ')'
    ensures Depth(t, d) == d
  {
    if t != "" {
      DepthFlat(t[1..], d);
    }
  }

  lemma DepthOfThree(a: string, b: string, c: string, d: nat)
    requires Depth(a, d) == d && Depth(b, d) == d && Depth(c, d) == d
    ensures Depth(a + b + c, d) == d
  {
    DepthSplit(a, b, d);
    DepthSplit(a + b, c, d);
  }

  lemma DepthInParens(a: string, d: nat)
    requires Depth(a, d + 1) == d + 1
    ensures Depth("(" + a + ")", d) == d
  {
    var t := "(" + a + ")";
    assert t[0] == '(' && t[1..] == a + ")";
    DepthSplit(a, ")", d + 1);
    assert Depth(")", d + 1) == d by {
      assert ")"[1..] == "";
    }
  }

  lemma {:induction false} MatchingSkips(t: string, rest: string, d: nat)
    requires Depth(t, d) >= 0
    ensures Matching(t + rest, d + 1) == |t| + Matching(rest, Depth(t, d) + 1)
  {
    if t == "" {
      assert t + rest == rest;
    } else {
      var d' := Nest(t[0], d);
      assert Depth(t, d) == Depth(t[1..], d');
      assert d' >= 0;
      var u := t + rest;
      assert u[0] == t[0] && u[1..] == t[1..] + rest;
      assert Matching(u, d + 1) == 1 + Matching(u[1..], d' + 1);
      MatchingSkips(t[1..], rest, d');
    }
  }

  /** Every string literal in e has paired parentheses. */
  predicate QuotedParensPair(e: Expr) {
    match e
    case Str(_, body) => Depth(body, 0) == 0
    case Call(_, arg, _, _, _) => QuotedParensPair(arg)
    case Bin(_, l, r, _, _) => QuotedParensPair(l) && QuotedParensPair(r)
    case Not(x, _) => QuotedParensPair(x)
    case _ => true
  }

  /** When every literal does so, a whole expression leaves the nesting depth where it was. */
  lemma {:induction false} PrintPairs(e: Expr, d: nat)
    requires Formed(e) && QuotedParensPair(e)
    ensures Depth(Print(e), d) == d
  {
    match e
    case Num(n) => DepthFlat(Itoa(n), d);
    case Str(quote, body) => QuotedPairs(quote, body, d);
    case Var(name) => DepthFlat(name, d);
    case Call(fn, arg, gap, lead, trail) =>
      PrintPairs(arg, d + 1);
      CallPairs(e, d);
    case Bin(op, l, r, before, after) =>
      PrintPairs(l, d);
      PrintPairs(r, d);
      OperatorPairs(e, d);
    case Not(x, after) =>
      PrintPairs(x, d);
      DepthFlat("not " + after, d);
      DepthSplit("not " + after, Print(x), d);
  }

  lemma OperatorPairs(e: Expr, d: nat)
    requires e.Bin? && AllBlank(e.before) && AllBlank(e.after)
    requires Depth(Print(e.left), d) == d && Depth(Print(e.right), d) == d
    ensures Depth(Print(e), d) == d
  {
    hide Depth;
    var mid := e.before + Spell(e.op) + e.after;
    DepthFlat(mid, d);
    DepthOfThree(Print(e.left), mid, Print(e.right), d);
    assert Print(e) == Print(e.left) + mid + Print(e.right);
  }

  lemma QuotedPairs(quote: char, body: string, d: nat)
    requires quote == '"' || quote == '\'' 
    requires Depth(body, 0) == 0
    ensures Depth([quote] + body + [quote], d) == d
  {
    DepthShift(body, 0, d);
    DepthFlat([quote], d);
    DepthOfThree([quote], body, [quote], d);
  }

  lemma ArgPairs(e: Expr, d: nat)
    requires e.Call? && AllBlank(e.lead) && AllBlank(e.trail) && Depth(Print(e.arg), d) == d
    ensures Depth(ArgText(e), d) == d
  {
    DepthFlat(e.lead, d);
    DepthFlat(e.trail, d);
    DepthOfThree(e.lead, Print(e.arg), e.trail, d);
  }

  lemma CallPairs(e: Expr, d: nat)
    requires e.Call? && AllBlank(e.lead) && AllBlank(e.trail) && Depth(Print(e.arg), d + 1) == d + 1
    requires IsName(e.fn) && AllBlank(e.gap)
    ensures Depth(Print(e), d) == d
  {
    ArgPairs(e, d + 1);
    DepthInParens(ArgText(e), d);
    DepthFlat(e.fn + e.gap, d);
    DepthSplit(e.fn + e.gap, "(" + ArgText(e) + ")", d);
    assert Print(e) == (e.fn + e.gap) + ("(" + ArgText(e) + ")");
  }

  // ---- the front of a printed expression ----

  /** What can start an expression: a digit, a minus sign, a quote or a letter. */
  predicate Starts(c: char) {
    IsAlnum(c) || c == '-' || c == '"' || c == '\''
  }

  lemma {:induction false} PrintStarts(e: Expr)
    requires Formed(e)
    ensures Print(e) != "" && Starts(Print(e)[0])
  {
    match e
    case Num(n) =>
      assert n >= 0 ==> Print(e) == Digits(n);
    case Str(quote, body) => assert Print(e)[0] == quote;
    case Var(name) =>
    case Call(fn, arg, gap, lead, trail) => assert Print(e)[0] == fn[0];
    case Bin(op, l, r, before, after) =>
      PrintStarts(l);
      assert Print(e)[0] == Print(l)[0];
    case Not(x, after) => assert Print(e)[0] == 'n';
  }

  lemma SkipPrinted(e: Expr, pad: string, rest: string)
    requires Formed(e) && AllBlank(pad)
    ensures SkipWs(pad + Print(e) + rest) == Print(e) + rest
  {
    hide Print, Formed;
    PrintStarts(e);
    var t := Print(e) + rest;
    assert t[0] == Print(e)[0] && !IsBlank(t[0]);
    SkipPad(pad, t);
    assert pad + Print(e) + rest == pad + t;
  }

  lemma NameIsNotNot(name: string, rest: string)
    requires IsName(name) && (rest != "" ==> !IsAlnum(rest[0]))
    ensures !("not " <= name + rest)
  {
    var t := name + rest;
    assert |name| < 3 && rest != "" ==> t[|name|] == rest[0] != "not "[|name|];
    assert |name| == 3 ==> name == t[..3];
    assert |name| > 3 ==> t[3] == name[3] != ' ';
  }

  /** What stands between two operands: nothing in it continues the operand before it. */
  lemma OperatorEnds(op: Op, before: string, tail: string)
    requires AllBlank(before) && (OpLevel(op) == 5 ==> before != "")
    ensures SkipWs(before + Spell(op) + tail) == Spell(op) + tail
    ensures Ends(before + Spell(op) + tail, 0)
    ensures OpLevel(op) >= 2 ==> Ends(before + Spell(op) + tail, 1)
    ensures OpLevel(op) >= 3 ==> Ends(before + Spell(op) + tail, 2)
    ensures OpLevel(op) == 5 ==> Ends(before + Spell(op) + tail, 3)
  {
    var c := Spell(op) + tail;
    SpellHead(op, tail);
    SkipPad(before, c);
    assert SkipWs(c) == c;
    assert before + Spell(op) + tail == before + c;
    assert (before + c)[0] == if before == "" then c[0] else before[0];
  }

  lemma SpellHead(op: Op, tail: string)
    ensures var c := Spell(op) + tail; c != "" && c[0] == Spell(op)[0] && c[0] != '(' && !IsBlank(c[0])
    ensures OpLevel(op) < 5 ==> !IsAlnum(Spell(op)[0])
    ensures OpLevel(op) >= 2 ==> !AtOp(Spell(op) + tail, 1)
    ensures OpLevel(op) >= 3 ==> !AtOp(Spell(op) + tail, 2)
    ensures OpLevel(op) == 5 ==> CmpAt(Spell(op) + tail).None?
    ensures OpLevel(op) == 5 ==> BoolAt(Spell(op) + tail) == Some(op)
  {
  }

  lemma {:induction false} PrintIsNotNot(e: Expr, rest: string)
    requires Formed(e) && Level(e) <= 3 && (rest != "" ==> !IsAlnum(rest[0]))
    ensures !("not " <= Print(e) + rest)
  {
    hide Print, Formed, SkipWs, AtOp, CmpAt, BoolAt;
    match e
    case Bin(op, l, r, before, after) =>
      BinParts(e);
      var tail := after + Print(r) + rest;
      OperatorEnds(op, before, tail);
      PrintIsNotNot(l, before + Spell(op) + tail);
      assert Print(e) + rest == Print(l) + (before + Spell(op) + tail) by {
        hide *;
        PrintBin(e, "", rest);
        assert "" + Print(e) == Print(e) && "" + Print(l) == Print(l);
      }
    case Call(fn, arg, gap, lead, trail) => CallIsNotNot(e, rest);
    case _ => PrimaryIsNotNot(e, rest);
  }

  lemma BinParts(e: Expr)
    requires Formed(e) && e.Bin?
    ensures Formed(e.left) && Level(e.left) <= (if OpLevel(e.op) == 3 then 2 else OpLevel(e.op))
    ensures Formed(e.right) && Level(e.right) < OpLevel(e.op) == Level(e)
    ensures AllBlank(e.before) && AllBlank(e.after) && (OpLevel(e.op) == 5 ==> e.before != "")
  {
  }

  lemma MeaningBin(e: Expr, env: Env)
    requires e.Bin?
    ensures Meaning(e, env) == Combine(e.op, Meaning(e.left, env), Meaning(e.right, env))
  {
  }

  lemma PrimaryIsNotNot(e: Expr, rest: string)
    requires Formed(e) && (e.Num? || e.Str? || e.Var?) && (rest != "" ==> !IsAlnum(rest[0]))
    ensures !("not " <= Print(e) + rest)
  {
    if e.Var? {
      NameIsNotNot(e.name, rest);
    } else {
      PrintStarts(e);
      assert (Print(e) + rest)[0] == Print(e)[0] != 'n';
    }
  }

  lemma PrintBin(e: Expr, pad: string, rest: string)
    requires e.Bin?
    ensures pad + Print(e) + rest
         == pad + Print(e.left) + (e.before + Spell(e.op) + (e.after + Print(e.right) + rest))
  {
  }

  lemma CallIsNotNot(e: Expr, rest: string)
    requires e.Call? && Formed(e)
    ensures !("not " <= Print(e) + rest)
  {
    hide Formed, Depth, Print, ArgText;
    CallParts(e);
    CallText(e, rest);
    var t := "(" + ArgText(e) + ")" + rest;
    assert t[0] == '(';
    assert (e.gap + t)[0] == if e.gap == "" then t[0] else e.gap[0];
    NameIsNotNot(e.fn, e.gap + t);
  }

  // ---- tokens ----

  lemma {:induction false} IdentRead(name: string, rest: string, max: nat)
    requires |name| <= max && forall i | 0 <= i < |name| :: IsAlnum(name[i])
    requires rest != "" ==> !IsAlnum(rest[0])
    ensures IdentLen(name + rest, max) == |name|
  {
    if name == "" {
      assert name + rest == rest;
    } else {
      assert (name + rest)[1..] == name[1..] + rest;
      IdentRead(name[1..], rest, max - 1);
    }
  }

  lemma {:induction false} BodyRead(body: string, quote: char, rest: string, max: nat)
    requires |body| <= max && quote !in body
    requires rest != "" && rest[0] == quote
    ensures BodyLen(body + rest, quote, max) == |body|
  {
    if body == "" {
      assert body + rest == rest;
    } else {
      assert (body + rest)[1..] == body[1..] + rest;
      BodyRead(body[1..], quote, rest, max - 1);
    }
  }

  lemma NumRead(n: nat, rest: string)
    requires rest != "" ==> !IsDigit(rest[0])
    ensures ReadNum(Digits(n) + rest, 0) == (n, rest)
  {
    ReadDigits(n, rest);
  }

  // ---- one lemma per evaluator level ----

  lemma {:induction false} PrimaryPrinted(e: Expr, pad: string, rest: string, env: Env)
    requires WellFormed(e, 0) && AllBlank(pad) && Ends(rest, 0)
    ensures Primary(pad + Print(e) + rest, env).0 == Meaning(e, env)
    ensures SkipWs(Primary(pad + Print(e) + rest, env).1) == SkipWs(rest)
    decreases e, 0
  {
    hide Primary, Print, Formed, Meaning, SkipWs, AllBlank, Named;
    SkipPrinted(e, pad, rest);
    match e
    case Call(fn, arg, gap, lead, trail) =>
      CallParts(e);
      BlankEnds(trail);
      EvalPrinted(arg, lead, trail, env);
      CallRead(e, rest, env);
      CallPrimary(e, pad + Print(e) + rest, rest, env);
    case _ => LeafPrinted(e, pad + Print(e) + rest, rest, env);
  }

  lemma LeafPrinted(e: Expr, t: string, rest: string, env: Env)
    requires Formed(e) && (e.Num? || e.Str? || e.Var?) && Ends(rest, 0) && SkipWs(t) == Print(e) + rest
    ensures Primary(t, env).0 == Meaning(e, env)
    ensures SkipWs(Primary(t, env).1) == SkipWs(rest)
  {
    hide Primary, SkipWs, Named, Quoted, AtOp, CmpAt, BoolAt;
    match e
    case Num(n) => NumPrinted(n, t, rest, env);
    case Str(quote, body) =>
      QuotedRead(quote, body, rest);
      QuotedPrimary(quote, t, body, rest, env);
    case Var(name) =>
      NamedPrimary(name, t, rest, env);
      VarRead(name, rest, env);
      SkipTwice(rest);
  }

  lemma CallParts(e: Expr)
    requires e.Call? && Formed(e)
    ensures Formed(e.arg) && AllBlank(e.lead) && AllBlank(e.trail) && AllBlank(e.gap) && IsName(e.fn)
    ensures Depth(ArgText(e), 0) == 0 && |ArgText(e)| <= ARG_MAX
  {
  }

  lemma BlankEnds(pad: string)
    requires AllBlank(pad)
    ensures Ends(pad, 5) && SkipWs(pad) == ""
  {
    SkipPad(pad, "");
    assert pad + "" == pad;
  }

  lemma NumPrinted(n: int, t: string, rest: string, env: Env)
    requires SkipWs(t) == Itoa(n) + rest && (rest != "" ==> !IsDigit(rest[0]))
    ensures Primary(t, env) == (Int(n), rest)
  {
    hide Named, Quoted, ReadNum, SkipWs, Digits;
    var ds := Digits(Abs(n));
    NumRead(Abs(n), rest);
    var q := ds + rest;
    assert q[0] == ds[0];
    if n < 0 {
      MinusPrimary(t, q, env);
      assert Itoa(n) + rest == "-" + q;
    } else {
      assert Itoa(n) + rest == q;
    }
  }

  lemma MinusPrimary(t: string, q: string, env: Env)
    requires SkipWs(t) == "-" + q && q != "" && IsDigit(q[0])
    ensures Primary(t, env) == (Int(-ReadNum(q, 0).0), ReadNum(q, 0).1)
  {
    hide Named, Quoted, ReadNum, SkipWs;
    var p := "-" + q;
    assert p[0] == '-' && p[1] == q[0] && p[1..] == q;
  }

  lemma QuotedRead(quote: char, body: string, rest: string)
    requires quote !in body && |body| <= STR_MAX
    ensures Quoted([quote] + body + [quote] + rest) == (PyVal(StrVal, 0, body), rest)
  {
    var p := [quote] + body + [quote] + rest;
    var close := [quote] + rest;
    assert p[1..] == body + close;
    BodyRead(body, quote, close, STR_MAX);
    assert p[1..1 + |body|] == body && p[1 + |body|..] == close;
    assert close[1..] == rest;
  }

  lemma QuotedPrimary(quote: char, t: string, body: string, rest: string, env: Env)
    requires (quote == '"' || quote == '\'') && SkipWs(t) == [quote] + body + [quote] + rest
    ensures Primary(t, env) == Quoted([quote] + body + [quote] + rest)
  {
    hide Quoted, ReadNum, Named;
    assert SkipWs(t)[0] == quote;
  }

  lemma NamedPrimary(name: string, t: string, tail: string, env: Env)
    requires IsName(name) && SkipWs(t) == name + tail
    ensures Primary(t, env) == Named(name + tail, env)
  {
    hide Quoted, ReadNum, Named;
    assert SkipWs(t)[0] == name[0];
  }

  lemma VarRead(name: string, rest: string, env: Env)
    requires IsName(name) && Ends(rest, 0)
    ensures Named(name + rest, env) == (Lookup(name, env), SkipWs(rest))
  {
    hide Eval, CallArg, Apply;
    var p := name + rest;
    IdentRead(name, rest, NAME_MAX);
    assert p[..|name|] == name && p[|name|..] == rest;
  }

  lemma CallPrimary(e: Expr, t: string, rest: string, env: Env)
    requires e.Call? && Formed(e) && SkipWs(t) == Print(e) + rest
    ensures Primary(t, env) == Named(Print(e) + rest, env)
  {
    hide Named, Primary, SkipWs;
    var tail := e.gap + "(" + ArgText(e) + ")" + rest;
    assert Print(e) + rest == e.fn + tail;
    NamedPrimary(e.fn, t, tail, env);
  }

  lemma CallRead(e: Expr, rest: string, env: Env)
    requires e.Call? && Formed(e) && Eval(ArgText(e), env).0 == Meaning(e.arg, env)
    ensures Named(Print(e) + rest, env) == (Meaning(e, env), rest)
  {
    hide Named, Apply, Eval, CallArg, Formed, SkipWs, ArgText, IdentLen;
    var q := "(" + ArgText(e) + ")" + rest;
    var p := e.fn + (e.gap + q);
    CallParts(e);
    CallText(e, rest);
    assert q[0] == '(';
    assert (e.gap + q)[0] == if e.gap == "" then q[0] else e.gap[0];
    IdentRead(e.fn, e.gap + q, NAME_MAX);
    assert p[..|e.fn|] == e.fn && p[|e.fn|..] == e.gap + q;
    assert SkipWs(e.gap + q) == q by {
      SkipPad(e.gap, q);
      SkipParen(q);
    }
    assert CallArg(q) == (ArgText(e), rest) by {
      hide *;
      ArgRead(ArgText(e), rest);
    }
    NamedCall(e.fn, p, q, ArgText(e), rest, env);
  }

  lemma SkipParen(q: string)
    requires q != "" && q[0] == '('
    ensures SkipWs(q) == q
  {
  }

  lemma CallText(e: Expr, rest: string)
    requires e.Call?
    ensures Print(e) + rest == e.fn + (e.gap + ("(" + ArgText(e) + ")" + rest))
  {
  }

  lemma NamedCall(fn: string, p: string, q: string, arg: string, rest: string, env: Env)
    requires IdentLen(p, NAME_MAX) == |fn| && p[..|fn|] == fn && SkipWs(p[|fn|..]) == q
    requires q != "" && q[0] == '(' && CallArg(q) == (arg, rest)
    ensures Named(p, env) == (Apply(fn, arg, Eval(arg, env).0), rest)
  {
    hide Apply, Eval, IdentLen, SkipWs, CallArg;
  }

  lemma ArgRead(arg: string, rest: string)
    requires Depth(arg, 0) == 0 && |arg| <= ARG_MAX
    ensures CallArg("(" + arg + ")" + rest) == (arg, rest)
  {
    hide Matching, Depth;
    var q := "(" + arg + ")" + rest;
    var close := ")" + rest;
    ArgMatched(arg, close);
    assert q == "(" + (arg + close);
    assert q[1..] == arg + close;
    assert q[1..1 + |arg|] == arg;
    assert q[2 + |arg|..] == rest;
  }

  lemma ArgMatched(arg: string, close: string)
    requires Depth(arg, 0) == 0 && close != "" && close[0] == ')'
    ensures Matching(arg + close, 1) == |arg|
  {
    hide Depth;
    MatchingSkips(arg, close, 0);
  }

  // How each level starts, takes one more operand, and stops.

  lemma EndsBelow(rest: string, level: nat, lower: nat)
    requires Ends(rest, level) && lower <= level
    ensures Ends(rest, lower)
  {
    hide AtOp, CmpAt, BoolAt, SkipWs;
  }

  lemma SkipTwice(t: string)
    ensures SkipWs(SkipWs(t)) == SkipWs(t)
  {
  }

  lemma MulStops(l: PyVal, rest: string, env: Env)
    requires Ends(rest, 1)
    ensures MulLoop(l, SkipWs(rest), env) == (l, SkipWs(rest))
  {
    hide AtOp, CmpAt, BoolAt, SkipWs;
  }

  lemma AddStarts(t: string, l: PyVal, rest: string, env: Env)
    requires MulDiv(t, env) == (l, SkipWs(rest))
    ensures AddSub(t, env) == AddLoop(l, SkipWs(rest), env)
  {
    hide MulDiv, AddLoop, SkipWs;
    SkipTwice(rest);
  }

  lemma AddStops(l: PyVal, rest: string, env: Env)
    requires Ends(rest, 2)
    ensures AddLoop(l, SkipWs(rest), env) == (l, SkipWs(rest))
  {
    hide AtOp, CmpAt, BoolAt, SkipWs;
  }

  lemma CmpStops(t: string, l: PyVal, rest: string, env: Env)
    requires AddSub(t, env) == (l, SkipWs(rest)) && Ends(rest, 3)
    ensures Cmp(t, env) == (l, SkipWs(rest))
  {
    hide AddSub, AtOp, CmpAt, BoolAt, SkipWs;
    SkipTwice(rest);
  }

  lemma BoolStarts(t: string, l: PyVal, rest: string, env: Env)
    requires NotLevel(t, env) == (l, SkipWs(rest))
    ensures Eval(t, env) == BoolLoop(l, SkipWs(rest), env)
  {
    hide NotLevel, BoolLoop, SkipWs;
    SkipTwice(rest);
  }

  lemma BoolStops(l: PyVal, rest: string, env: Env)
    requires Ends(rest, 5)
    ensures BoolLoop(l, SkipWs(rest), env) == (l, SkipWs(rest))
  {
    hide AtOp, CmpAt, BoolAt, SkipWs;
  }

  lemma {:induction false} MulPrinted(e: Expr, pad: string, rest: string, env: Env)
    requires WellFormed(e, 1) && AllBlank(pad) && Ends(rest, 0)
    ensures MulDiv(pad + Print(e) + rest, env) == MulLoop(Meaning(e, env), SkipWs(rest), env)
    decreases e, 1
  {
    hide Primary, MulLoop, Print, Formed, Meaning, SkipWs, AllBlank, Ends, MulOp, AddOp, CmpOp, BoolOp;
    if e.Bin? {
      var tail := e.after + Print(e.right) + rest;
      BinParts(e);
      MeaningBin(e, env);
      OperatorEnds(e.op, e.before, tail);
      MulPrinted(e.left, pad, e.before + Spell(e.op) + tail, env);
      PrimaryPrinted(e.right, e.after, rest, env);
      MulStep(Meaning(e.left, env), e.op, tail, env);
      assert MulDiv(pad + Print(e) + rest, env) == MulLoop(Meaning(e.left, env), Spell(e.op) + tail, env) by {
        hide *;
        PrintBin(e, pad, rest);
      }
    } else {
      PrimaryPrinted(e, pad, rest, env);
    }
  }

  lemma MulStep(l: PyVal, op: Op, tail: string, env: Env)
    requires OpLevel(op) == 1
    ensures var (v, q) := Primary(tail, env);
      MulLoop(l, Spell(op) + tail, env) == MulLoop(MulOp(op, l, v), SkipWs(q), env)
  {
    hide Primary, MulOp, SkipWs;
    var t := Spell(op) + tail;
    assert t[0] == Spell(op)[0] && t[1..] == tail;
    assert AtOp(t, 1) && OpOf(t[0]) == op;
  }

  lemma {:induction false} AddPrinted(e: Expr, pad: string, rest: string, env: Env)
    requires WellFormed(e, 2) && AllBlank(pad) && Ends(rest, 1)
    ensures AddSub(pad + Print(e) + rest, env) == AddLoop(Meaning(e, env), SkipWs(rest), env)
    decreases e, 2
  {
    hide AddSub, MulDiv, AddLoop, Print, Formed, Meaning, SkipWs, AllBlank, Ends, MulOp, AddOp, CmpOp, BoolOp;
    EndsBelow(rest, 1, 0);
    if e.Bin? && OpLevel(e.op) == 2 {
      var tail := e.after + Print(e.right) + rest;
      BinParts(e);
      MeaningBin(e, env);
      OperatorEnds(e.op, e.before, tail);
      AddPrinted(e.left, pad, e.before + Spell(e.op) + tail, env);
      MulPrinted(e.right, e.after, rest, env);
      MulStops(Meaning(e.right, env), rest, env);
      SkipTwice(rest);
      AddStep(Meaning(e.left, env), e.op, tail, env);
      assert AddSub(pad + Print(e) + rest, env) == AddLoop(Meaning(e.left, env), Spell(e.op) + tail, env) by {
        hide *;
        PrintBin(e, pad, rest);
      }
    } else {
      MulPrinted(e, pad, rest, env);
      MulStops(Meaning(e, env), rest, env);
      AddStarts(pad + Print(e) + rest, Meaning(e, env), rest, env);
    }
  }

  lemma AddStep(l: PyVal, op: Op, tail: string, env: Env)
    requires OpLevel(op) == 2
    ensures var (v, q) := MulDiv(tail, env);
      AddLoop(l, Spell(op) + tail, env) == AddLoop(AddOp(op, l, v), SkipWs(q), env)
  {
    hide MulDiv, AddOp, SkipWs;
    var t := Spell(op) + tail;
    assert t[0] == Spell(op)[0] && t[1..] == tail;
    assert AtOp(t, 2) && OpOf(t[0]) == op;
  }

  lemma {:induction false} CmpPrinted(e: Expr, pad: string, rest: string, env: Env)
    requires WellFormed(e, 3) && AllBlank(pad) && Ends(rest, 3)
    ensures Cmp(pad + Print(e) + rest, env) == (Meaning(e, env), SkipWs(rest))
    decreases e, 4
  {
    hide AddSub, AddLoop, Cmp, Print, Formed, Meaning, SkipWs, AllBlank, Ends;
    if e.Bin? && OpLevel(e.op) == 3 {
      ComparisonPrinted(e, pad, rest, env);
    } else {
      EndsBelow(rest, 3, 2);
      SumPrinted(e, pad, rest, env);
      CmpStops(pad + Print(e) + rest, Meaning(e, env), rest, env);
    }
  }

  /** A sum followed by neither a product nor a sum operator. */
  lemma {:induction false} SumPrinted(e: Expr, pad: string, rest: string, env: Env)
    requires WellFormed(e, 2) && AllBlank(pad) && Ends(rest, 2)
    ensures AddSub(pad + Print(e) + rest, env) == (Meaning(e, env), SkipWs(rest))
    decreases e, 3
  {
    hide AddSub, AddLoop, Print, Formed, Meaning, SkipWs, AllBlank, Ends;
    EndsBelow(rest, 2, 1);
    AddPrinted(e, pad, rest, env);
    AddStops(Meaning(e, env), rest, env);
  }

  lemma {:induction false} ComparisonPrinted(e: Expr, pad: string, rest: string, env: Env)
    requires WellFormed(e, 3) && e.Bin? && OpLevel(e.op) == 3 && AllBlank(pad) && Ends(rest, 3)
    ensures Cmp(pad + Print(e) + rest, env) == (Meaning(e, env), SkipWs(rest))
    decreases e, 3
  {
    hide Cmp, AddSub, Print, Formed, Meaning, SkipWs, AllBlank, Ends, CmpAt, MulOp, AddOp, CmpOp, BoolOp;
    BinParts(e);
    MeaningBin(e, env);
    EndsBelow(rest, 3, 2);
    var tail := e.after + Print(e.right) + rest;
    var c := Spell(e.op) + tail;
    OperatorEnds(e.op, e.before, tail);
    SumPrinted(e.left, pad, e.before + Spell(e.op) + tail, env);
    SumPrinted(e.right, e.after, rest, env);
    CmpRead(e.op, e.right, e.after, rest);
    SkipTwice(e.before + Spell(e.op) + tail);
    assert AddSub(pad + Print(e) + rest, env) == (Meaning(e.left, env), c) by {
      hide *;
      PrintBin(e, pad, rest);
    }
    CmpStep(pad + Print(e) + rest, Meaning(e.left, env), e.op, c, tail, env);
  }

  lemma CmpStep(t: string, l: PyVal, op: Op, c: string, tail: string, env: Env)
    requires AddSub(t, env) == (l, c) && SkipWs(c) == c && CmpAt(c) == Some(op) && c == Spell(op) + tail
    ensures var (v, q) := AddSub(tail, env); Cmp(t, env) == (CmpOp(op, l, v), q)
  {
    hide AddSub, CmpAt, CmpOp, SkipWs;
    assert c[|Spell(op)|..] == tail;
  }

  /** The comparison is read whole: no operand starts with '='. */
  lemma CmpRead(op: Op, r: Expr, after: string, rest: string)
    requires OpLevel(op) == 3 && Formed(r) && AllBlank(after)
    ensures var c := Spell(op) + (after + Print(r) + rest); CmpAt(c) == Some(op)
  {
    hide Print, Formed;
    PrintStarts(r);
    var tail := after + Print(r) + rest;
    assert tail[0] == if after == "" then Print(r)[0] else after[0];
    var c := Spell(op) + tail;
    assert c[0] == Spell(op)[0];
    assert c[1] == if |Spell(op)| == 2 then Spell(op)[1] else tail[0];
  }

  lemma {:induction false} NotPrinted(e: Expr, pad: string, rest: string, env: Env)
    requires WellFormed(e, 4) && AllBlank(pad) && Ends(rest, 3)
    ensures NotLevel(pad + Print(e) + rest, env) == (Meaning(e, env), SkipWs(rest))
    decreases e, 5
  {
    hide NotLevel, Cmp, Print, Formed, Meaning, SkipWs, AllBlank, AtOp, CmpAt, BoolAt;
    SkipPrinted(e, pad, rest);
    if e.Not? {
      NotParts(e, rest, env);
      CmpPrinted(e.e, e.after, rest, env);
      NotStep(pad + Print(e) + rest, Print(e) + rest, env);
    } else {
      PrintIsNotNot(e, rest);
      BlankNothing();
      CmpPrinted(e, "", rest, env);
      assert "" + Print(e) + rest == Print(e) + rest;
      NotStep(pad + Print(e) + rest, Print(e) + rest, env);
    }
  }

  lemma NotStep(t: string, p: string, env: Env)
    requires SkipWs(t) == p
    ensures "not " <= p ==> NotLevel(t, env) == (NotOp(Cmp(p[4..], env).0), Cmp(p[4..], env).1)
    ensures !("not " <= p) ==> NotLevel(t, env) == Cmp(p, env)
  {
    hide Cmp, SkipWs;
  }

  lemma BlankNothing()
    ensures AllBlank("")
  {
  }

  lemma NotParts(e: Expr, rest: string, env: Env)
    requires e.Not? && Formed(e)
    ensures AllBlank(e.after) && Level(e.e) <= 3 && Formed(e.e)
    ensures "not " <= Print(e) + rest
    ensures (Print(e) + rest)[4..] == e.after + Print(e.e) + rest
    ensures Meaning(e, env) == NotOp(Meaning(e.e, env))
  {
    assert Print(e) + rest == "not " + (e.after + Print(e.e) + rest);
  }

  lemma {:induction false} BoolPrinted(e: Expr, pad: string, rest: string, env: Env)
    requires WellFormed(e, 5) && AllBlank(pad) && Ends(rest, 3)
    ensures Eval(pad + Print(e) + rest, env) == BoolLoop(Meaning(e, env), SkipWs(rest), env)
    decreases e, 6
  {
    hide Eval, NotLevel, BoolLoop, Print, Formed, Meaning, SkipWs, AllBlank, Ends, MulOp, AddOp, CmpOp, BoolOp;
    if e.Bin? && OpLevel(e.op) == 5 {
      var tail := e.after + Print(e.right) + rest;
      BinParts(e);
      MeaningBin(e, env);
      OperatorEnds(e.op, e.before, tail);
      BoolPrinted(e.left, pad, e.before + Spell(e.op) + tail, env);
      NotPrinted(e.right, e.after, rest, env);
      SkipTwice(rest);
      BoolStep(Meaning(e.left, env), e.op, tail, env);
      assert Eval(pad + Print(e) + rest, env) == BoolLoop(Meaning(e.left, env), Spell(e.op) + tail, env) by {
        hide *;
        PrintBin(e, pad, rest);
      }
    } else {
      NotPrinted(e, pad, rest, env);
      BoolStarts(pad + Print(e) + rest, Meaning(e, env), rest, env);
    }
  }

  lemma BoolStep(l: PyVal, op: Op, tail: string, env: Env)
    requires OpLevel(op) == 5
    ensures var (v, q) := NotLevel(tail, env);
      BoolLoop(l, Spell(op) + tail, env) == BoolLoop(BoolOp(op, l, v), SkipWs(q), env)
  {
    hide NotLevel;
    SpellHead(op, tail);
    assert (Spell(op) + tail)[|Spell(op)|..] == tail;
  }

  /** The main result for expressions, in any surrounding that does not continue them. */
  lemma {:induction false} EvalPrinted(e: Expr, pad: string, rest: string, env: Env)
    requires WellFormed(e, 5) && AllBlank(pad) && Ends(rest, 5)
    ensures Eval(pad + Print(e) + rest, env) == (Meaning(e, env), SkipWs(rest))
    decreases e, 7
  {
    hide Eval, BoolLoop, Print, Meaning, SkipWs, Ends;
    EndsBelow(rest, 5, 3);
    BoolPrinted(e, pad, rest, env);
    BoolStops(Meaning(e, env), rest, env);
  }

  /** On its own the printed text is consumed whole. */
  lemma EvalWhole(e: Expr, env: Env)
    requires WellFormed(e, 5)
    ensures Eval(Print(e), env) == (Meaning(e, env), "")
  {
    hide Eval, Print, Meaning;
    EvalPrinted(e, "", "", env);
    assert "" + Print(e) + "" == Print(e);
  }
}
