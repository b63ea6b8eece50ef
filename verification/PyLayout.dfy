/** Reading back single lines: what each printed header is taken for, and what it holds. */
module PyLayout {
  import opened CText
  import opened PyExpr
  import opened PyBlock
  import opened PyRoundTrip
  import P = PyProgram

  lemma {:induction false} IndentPad(pad: string, t: string)
    requires AllBlank(pad) && t != "" && !IsBlank(t[0])
    ensures Indent(pad + t) == |pad|
  {
    if pad == "" {
      assert pad + t == t;
    } else {
      assert (pad + t)[1..] == pad[1..] + t;
      IndentPad(pad[1..], t);
    }
  }

  /** A printed line shows its text after blanks of the given number, and works. */
  predicate Shows(line: string, n: nat, p: string) {
    SkipWs(line) == p && Indent(line) == n && !Idle(line) && p != ""
  }

  lemma LineShows(ind: string, p: string)
    requires AllBlank(ind) && p != "" && !IsBlank(p[0]) && p[0] != '#'
    ensures Shows(ind + p, |ind|, p)
  {
    SkipPad(ind, p);
    IndentPad(ind, p);
  }

  lemma HeadShows(s: P.Stmt, ind: string)
    requires AllBlank(ind) && !s.Skip? && P.FormedStmt(s)
    ensures Shows(ind + P.Head(s), |ind|, P.Head(s))
  {
    assert P.Head(s) != "" && !IsBlank(P.Head(s)[0]) && P.Head(s)[0] != '#' by {
      hide Print, Itoa, Formed;
      match s
      case Assign(name, e) => assert P.Head(s)[0] == name[0];
      case Skip(_) =>
      case _ => assert P.Head(s)[0] in "piwf";
    }
    hide *;
    HeadLine(ind, P.Head(s));
  }

  lemma HeadLine(ind: string, p: string)
    requires AllBlank(ind) && p != "" && !IsBlank(p[0]) && p[0] != '#'
    ensures Shows(ind + p, |ind|, p)
  {
    hide SkipWs, Indent;
    LineShows(ind, p);
  }

  lemma ChainHeadShows(c: P.Chain, ind: string)
    requires AllBlank(ind) && !c.NoElse?
    ensures Shows(ind + P.ChainHead(c), |ind|, P.ChainHead(c))
    ensures ContinuesChain(ind + P.ChainHead(c), |ind|)
    ensures "elif " <= P.ChainHead(c) <==> c.Elif?
  {
    var p := P.ChainHead(c);
    assert p[0] == 'e' && p[1] == 'l' && p[2] == (if c.Elif? then 'i' else 's') by { hide Print; }
    assert "elif " <= p || "else" <= p by { hide Print; }
    hide *;
    HeadLine(ind, p) by { assert !IsBlank('e') by { NotBlankE(); } }
    ContinuesShown(ind + p, |ind|, p);
  }

  lemma NotBlankE()
    ensures !IsBlank('e')
  {
  }

  lemma ContinuesShown(line: string, n: nat, p: string)
    requires Shows(line, n, p)
    ensures ContinuesChain(line, n) <==> "elif " <= p || "else" <= p
  {
    hide SkipWs, Indent;
  }

  // ---- keywords ----

  /** A name followed by a blank is a keyword only when it is spelled like one. */
  lemma NotKeyword(word: string, name: string, tail: string)
    requires (forall i | 0 <= i < |word| :: IsAlnum(word[i])) && (forall i | 0 <= i < |name| :: IsAlnum(name[i]))
    requires tail != "" && !IsAlnum(tail[0])
    requires name != word
    ensures forall c | !IsAlnum(c) :: !(word + [c] <= name + tail)
  {
    var t := name + tail;
    forall c | !IsAlnum(c)
      ensures !(word + [c] <= t)
    {
      var w := word + [c];
      if |name| < |word| {
        assert t[|name|] == tail[0] && w[|name|] == word[|name|];
      } else if |name| > |word| {
        assert t[|word|] == name[|word|] && w[|word|] == c;
      } else {
        assert w[..|word|] == word && t[..|word|] == name;
      }
    }
  }

  lemma NotPrefix(word: string, name: string, tail: string)
    requires forall i | 0 <= i < |word| :: IsAlnum(word[i])
    requires tail != "" && !IsAlnum(tail[0])
    requires !(word <= name)
    ensures !(word <= name + tail)
  {
    var t := name + tail;
    if |name| < |word| {
      assert t[|name|] == tail[0];
    } else {
      assert t[..|word|] == name[..|word|];
    }
  }

  /** No statement's first line continues an if-chain. */
  lemma HeadStartsNoArm(s: P.Stmt)
    requires !s.Skip? && P.FormedStmt(s)
    ensures !("elif " <= P.Head(s)) && !("else" <= P.Head(s))
  {
    hide Print, Itoa, Formed;
    match s
    case Assign(name, e) => AssignIsPlain(name, " = " + Print(e));
    case Skip(_) =>
    case _ => assert P.Head(s)[0] in "piwf";
  }

  lemma AssignIsPlain(name: string, tail: string)
    requires P.Bindable(name) && tail != "" && tail[0] == ' '
    ensures var p := name + tail;
      !IsArm(p) && !("else" <= p) && !("while " <= p) && !("for " <= p) && !("print(" <= p)
  {
    NotKeyword("if", name, tail);
    NotKeyword("elif", name, tail);
    NotKeyword("while", name, tail);
    NotKeyword("for", name, tail);
    NotPrefix("else", name, tail);
    KeywordTexts();
    PrintIsNoName(name, tail);
  }

  lemma KeywordTexts()
    ensures "if" + [' '] == "if " && "elif" + [' '] == "elif " && "while" + [' '] == "while " && "for" + [' '] == "for "
  {
  }

  lemma PrintIsNoName(name: string, tail: string)
    requires (forall i | 0 <= i < |name| :: IsAlnum(name[i])) && tail != "" && tail[0] == ' '
    ensures !("print(" <= name + tail)
  {
    var t := name + tail;
    if |name| <= 5 {
      assert t[|name|] == ' ' && "print("[|name|] != ' ';
    } else {
      assert t[5] == name[5] && "print("[5] == '(';
    }
  }

  // ---- what the headers hold ----

  lemma BeforeStop(t: string, stop: char, tail: string, max: nat)
    requires stop !in t && |t| <= max
    ensures Before(t + [stop] + tail, stop, max) == t
  {
    var u := t + [stop] + tail;
    assert u == t + ([stop] + tail);
    BodyRead(t, stop, [stop] + tail, max);
    assert u[..|t|] == t;
  }

  lemma CondRead(cond: Expr, env: Env)
    requires P.FormedCond(cond)
    ensures Before(Print(cond) + ":", ':', ARG_MAX) == Print(cond)
    ensures Eval(Print(cond), env).0 == Meaning(cond, env)
  {
    hide Eval, Meaning, Formed, Print, Before;
    BeforeStop(Print(cond), ':', "", ARG_MAX);
    assert Print(cond) + ":" + "" == Print(cond) + ":";
    ExprEvaluated(cond, env);
  }

  lemma ExprEvaluated(e: Expr, env: Env)
    requires Formed(e)
    ensures Eval(Print(e), env) == (Meaning(e, env), "")
  {
    hide Eval, Meaning, Formed, Print;
    EvalWhole(e, env);
  }

  lemma ArmHeadRead(word: string, cond: Expr, env: Env)
    requires word == "if " || word == "elif "
    requires P.FormedCond(cond)
    ensures IsArm(word + Print(cond) + ":")
    ensures Eval(ArmCond(word + Print(cond) + ":"), env).0 == Meaning(cond, env)
  {
    hide Eval, Meaning, Formed, Print, Before;
    CondRead(cond, env);
    var p := word + Print(cond) + ":";
    assert p[0] == word[0];
    assert p[|word|..] == Print(cond) + ":";
    assert word <= p;
  }

  lemma WhileHeadRead(cond: Expr, env: Env)
    requires P.FormedCond(cond)
    ensures var p := "while " + Print(cond) + ":";
      && "while " <= p && !IsArm(p) && !("else" <= p)
      && Eval(Before(p[6..], ':', ARG_MAX), env).0 == Meaning(cond, env)
  {
    hide Eval, Meaning, Formed, Print, Before;
    CondRead(cond, env);
    var p := "while " + Print(cond) + ":";
    assert p[0] == 'w';
    assert p[6..] == Print(cond) + ":";
  }

  /** A `for` header over any text in range(): the loop variable, and the text packed for py_exec_block. */
  lemma ForTextRead(name: string, args: string, env: Env)
    requires P.IsVar(name) && ':' !in args && |args| + 7 <= PART_MAX && Depth(args, 0) == 0
    ensures var p := "for " + name + " in range(" + args + "):";
      && "for " <= p && !IsArm(p) && !("else" <= p) && !("while " <= p)
      && ForVar(p) == name
      && Eval(ForIter(p), env).0 == PyVal(StrVal, 0, [RANGE_MARK] + args)
  {
    hide *;
    var call := "range(" + args + ")";
    var rest := " in " + (call + ":");
    var u := name + rest;
    ForShape(name, args);
    ForIsHeader(u);
    CallPlain(args);
    ForVarRead("for " + u, name, rest);
    ForIterRead("for " + u, |name|, call);
    RangeEvaluated(args, env) by { SizesOrder(); }
  }

  lemma SizesOrder()
    ensures PART_MAX <= ARG_MAX
  {
  }

  lemma ForHeadRead(name: string, r: P.Range, env: Env)
    requires P.IsVar(name) && P.FormedRange(r)
    ensures var p := "for " + name + " in range(" + P.RangeArgs(r) + "):";
      && "for " <= p && !IsArm(p) && !("else" <= p) && !("while " <= p)
      && ForVar(p) == name
      && Bounds(Eval(ForIter(p), env).0) == (if r.FromTo? then r.lo else 0, r.hi)
  {
    hide *;
    RangeArgsPlain(r);
    RangeArgsShort(r);
    RangeHasNoColon(r);
    ForTextRead(name, P.RangeArgs(r), env);
    BoundsRead(r);
  }

  lemma ForShape(name: string, args: string)
    ensures "for " + name + " in range(" + args + "):" == "for " + (name + (" in " + ("range(" + args + ")" + ":")))
  {
    calc {
      "for " + name + " in range(" + args + "):";
      { assert " in range(" == " in " + "range("; assert "):" == ")" + ":"; }
      "for " + name + (" in " + "range(") + args + (")" + ":");
      "for " + (name + (" in " + ("range(" + args + ")" + ":")));
    }
  }

  lemma ForIsHeader(tail: string)
    ensures var p := "for " + tail; "for " <= p && !IsArm(p) && !("else" <= p) && !("while " <= p)
  {
    assert ("for " + tail)[0] == 'f';
  }

  lemma ForVarRead(p: string, name: string, rest: string)
    requires P.IsVar(name) && p == "for " + (name + rest) && rest != "" && !IsAlnum(rest[0])
    ensures "for " <= p && IdentLen(p[4..], VAR_MAX) == |name| <= |p| - 4
    ensures ForVar(p) == name && p[4..][|name|..] == rest
  {
    hide IdentLen;
    assert p[4..] == name + rest;
    IdentRead(name, rest, VAR_MAX);
    assert (name + rest)[..|name|] == name && (name + rest)[|name|..] == rest;
  }

  lemma ForIterRead(p: string, k: nat, call: string)
    requires "for " <= p && IdentLen(p[4..], VAR_MAX) == k <= |p| - 4 && p[4..][k..] == " in " + (call + ":")
    requires ':' !in call && |call| <= PART_MAX
    ensures ForIter(p) == call
  {
    hide Before, IdentLen, SkipWs;
    InSkipped(call + ":");
    var q := "in " + (call + ":");
    assert "in " <= q && q[3..] == call + ":";
    BeforeStop(call, ':', "", PART_MAX);
    assert call + ":" + "" == call + ":";
  }

  lemma InSkipped(t: string)
    ensures SkipWs(" in " + t) == "in " + t
  {
    var q := "in " + t;
    assert " in " + t == " " + q && q[0] == 'i';
    BlankSpace();
    SkipPad(" ", q);
  }

  lemma CallPlain(args: string)
    requires ':' !in args && |args| + 7 <= PART_MAX
    ensures var call := "range(" + args + ")"; ':' !in call && |call| <= PART_MAX
    ensures var rest := " in " + ("range(" + args + ")" + ":"); rest != "" && !IsAlnum(rest[0])
  {
  }

  lemma RangeHasNoColon(r: P.Range)
    ensures ':' !in P.RangeArgs(r)
  {
    hide Itoa;
    ItoaPlain(r.hi);
    if r.FromTo? {
      ItoaPlain(r.lo);
    }
  }

  lemma RangeArgsShort(r: P.Range)
    requires P.FormedRange(r)
    ensures |P.RangeArgs(r)| + 7 <= PART_MAX
  {
    hide P.RangeArgs;
  }

  lemma RangeArgsPlain(r: P.Range)
    ensures Depth(P.RangeArgs(r), 0) == 0
  {
    hide Depth, Itoa;
    var t := P.RangeArgs(r);
    ItoaNoParens(r.hi);
    if r.FromTo? {
      ItoaNoParens(r.lo);
    }
    assert '(' !in t && ')' !in t;
    DepthFlat(t, 0);
  }

  lemma ItoaNoParens(n: int)
    ensures '(' !in Itoa(n) && ')' !in Itoa(n)
  {
    hide Digits;
  }

  /** A call of range evaluates to its marked argument text, whatever else that text says, as long as it closes the
      parentheses it opens. */
  lemma RangeEvaluated(args: string, env: Env)
    requires Depth(args, 0) == 0 && |args| <= ARG_MAX
    ensures Eval("range(" + args + ")", env).0 == PyVal(StrVal, 0, [RANGE_MARK] + args)
  {
    hide Eval, Primary, Named, CallArg, Matching, Depth, Apply;
    var t := "range(" + args + ")";
    var q := "(" + args + ")" + "";
    assert t == "range" + q;
    assert CallArg(q) == (args, "") by { ArgRead(args, ""); }
    RangeNamed(t, q, args, env);
    assert !("not " <= t);
    EmptyEnds();
    PrimaryAlone(t, PyVal(StrVal, 0, [RANGE_MARK] + args), "", env);
  }

  lemma EmptyEnds()
    ensures Ends("", 5) && SkipWs("") == ""
  {
    BlankNothing();
    BlankEnds("");
  }

  lemma RangeNamed(t: string, q: string, args: string, env: Env)
    requires t == "range" + q && q != "" && q[0] == '(' && CallArg(q) == (args, "")
    ensures Primary(t, env) == (PyVal(StrVal, 0, [RANGE_MARK] + args), "")
    ensures t[0] == 'r'
  {
    hide Primary, Named, CallArg, Eval;
    IdentRead("range", q, NAME_MAX);
    assert t[..5] == "range" && t[5..] == q;
    SkipParen(q);
    NamedCall("range", t, q, args, "", env);
    assert SkipWs(t) == t by { assert t[0] == 'r'; }
    NamedPrimary("range", t, q, env);
  }

  /** A text that starts with a primary, and not with a negation, evaluates to it when nothing after it
      continues it. */
  lemma PrimaryAlone(t: string, v: PyVal, rest: string, env: Env)
    requires t != "" && !IsBlank(t[0]) && !("not " <= t) && Primary(t, env) == (v, rest) && Ends(rest, 5)
    ensures Eval(t, env) == (v, SkipWs(rest))
  {
    hide Eval, NotLevel, Cmp, AddSub, MulDiv, MulLoop, AddLoop, BoolLoop, Primary, SkipWs, Ends;
    EndsBelow(rest, 5, 3);
    EndsBelow(rest, 5, 2);
    EndsBelow(rest, 5, 1);
    MulStarts(t, v, rest, env);
    MulStops(v, rest, env);
    AddStarts(t, v, rest, env);
    AddStops(v, rest, env);
    CmpStops(t, v, rest, env);
    NotStep(t, t, env) by { SkipNothing(t); }
    BoolStarts(t, v, rest, env);
    BoolStops(v, rest, env);
  }

  lemma SkipNothing(t: string)
    requires t != "" && !IsBlank(t[0])
    ensures SkipWs(t) == t
  {
  }

  lemma MulStarts(t: string, l: PyVal, rest: string, env: Env)
    requires Primary(t, env) == (l, rest)
    ensures MulDiv(t, env) == MulLoop(l, SkipWs(rest), env)
  {
    hide Primary, MulLoop, SkipWs;
  }

  // ---- numbers ----

  lemma AtoiNumber(n: int, rest: string)
    requires rest != "" ==> !IsDigit(rest[0])
    ensures Atoi(Itoa(n) + rest) == n
  {
    hide Digits, ReadNum;
    var ds := Digits(Abs(n));
    NumRead(Abs(n), rest);
    var t := Itoa(n) + rest;
    assert (ds + rest)[0] == ds[0];
    if n < 0 {
      assert t == "-" + (ds + rest) && t[1..] == ds + rest;
    } else {
      assert t == ds + rest;
    }
  }

  lemma AtoiSpaced(t: string)
    ensures Atoi(" " + t) == Atoi(t)
  {
    hide ReadNum;
    assert (" " + t)[0] == ' ' && (" " + t)[1..] == t;
  }

  /** py_atoi undoes py_itoa. */
  lemma AtoiItoa(n: int)
    ensures Atoi(Itoa(n)) == n
    ensures Atoi(" " + Itoa(n)) == n
  {
    hide Itoa, Atoi;
    AtoiNumber(n, "");
    assert Itoa(n) + "" == Itoa(n);
    AtoiSpaced(Itoa(n));
  }

  /** int(str(e)) is e for every integer-valued e. */
  lemma IntOfStr(e: Expr, env: Env, gap: string)
    requires Meaning(e, env).kind == IntVal
    ensures Meaning(Call("int", Call("str", e, gap, gap, gap), gap, gap, gap), env) == Int(Meaning(e, env).ival)
  {
    hide Itoa, Atoi;
    AtoiItoa(Meaning(e, env).ival);
  }

  lemma BoundsRead(r: P.Range)
    requires P.FormedRange(r)
    ensures Bounds(PyVal(StrVal, 0, [RANGE_MARK] + P.RangeArgs(r))) == (if r.FromTo? then r.lo else 0, r.hi)
  {
    hide Itoa, Atoi, Bounds;
    AtoiItoa(r.hi);
    ItoaPlain(r.hi);
    if r.FromTo? {
      AtoiItoa(r.lo);
      ItoaPlain(r.lo);
      TwoBounds(Itoa(r.lo), Itoa(r.hi));
    } else {
      OneBound(Itoa(r.hi));
    }
  }

  lemma OneBound(t: string)
    requires ',' !in t
    ensures Bounds(PyVal(StrVal, 0, [RANGE_MARK] + t)) == (0, Atoi(t))
  {
    hide Atoi;
    assert ([RANGE_MARK] + t)[1..] == t;
    BodyAll(t, ',', |t|);
  }

  lemma TwoBounds(a: string, b: string)
    requires ',' !in a && |a| <= RANGE_MAX
    ensures Bounds(PyVal(StrVal, 0, [RANGE_MARK] + (a + ", " + b))) == (Atoi(a), Atoi(b))
  {
    hide Atoi;
    var t := a + ", " + b;
    var tail := ", " + b;
    assert t == a + tail && ([RANGE_MARK] + t)[1..] == t;
    BodyRead(a, ',', tail, |t|);
    assert t[..|a|] == a && t[|a| + 1..] == " " + b;
    AtoiSpaced(b);
  }

  lemma ItoaPlain(n: int)
    ensures ',' !in Itoa(n) && ':' !in Itoa(n)
  {
    hide Digits;
  }

  lemma {:induction false} BodyAll(t: string, stop: char, max: nat)
    requires stop !in t && |t| <= max
    ensures BodyLen(t, stop, max) == |t|
  {
    if t != "" {
      BodyAll(t[1..], stop, max - 1);
    }
  }

  // ---- plain lines ----

  lemma AssignRead(name: string, e: Expr, line: string, n: nat, st: State)
    requires P.Bindable(name) && Formed(e) && Shows(line, n, name + " = " + Print(e))
    ensures RunLine(line, st) == st.(env := SetVar(st.env, Take(name, VAR_MAX), Meaning(e, st.env)))
  {
    hide *;
    AssignTextRead(name, Print(e), line, n, st);
    BlankSpace();
    PaddedEvaluated(e, " ", st.env);
  }

  /** An assignment binds its name, cut to 31 characters, to whatever the text after '=' evaluates to. */
  lemma AssignTextRead(name: string, text: string, line: string, n: nat, st: State)
    requires P.Bindable(name) && Shows(line, n, name + " = " + text)
    ensures RunLine(line, st) == st.(env := SetVar(st.env, Take(name, VAR_MAX), Eval(" " + text, st.env).0))
  {
    hide Eval, SkipWs, Indent, EqLen, SetVar;
    AssignParts(name, text);
  }

  lemma AssignParts(name: string, value: string)
    requires P.Bindable(name)
    ensures var p := name + " = " + value;
      && !("print(" <= p) && EqLen(p) == |name| + 1 && IsAssignment(p)
      && p[..IdentLen(p, VAR_MAX)] == Take(name, VAR_MAX)
      && |name| + 2 <= |p| && p[|name| + 2..] == " " + value
  {
    hide *;
    var tail := " = " + value;
    BindableParts(name);
    AssignTail(name, value);
    AssignIsPlain(name, tail);
    VarCut(name, tail);
    AssignEq(name, value);
  }

  lemma VarCut(name: string, rest: string)
    requires forall i | 0 <= i < |name| :: IsAlnum(name[i])
    requires rest != "" ==> !IsAlnum(rest[0])
    ensures (name + rest)[..IdentLen(name + rest, VAR_MAX)] == Take(name, VAR_MAX)
  {
    hide IdentLen;
    IdentCut(name, rest, VAR_MAX);
  }

  lemma BindableParts(name: string)
    requires P.Bindable(name)
    ensures name != "" && forall i | 0 <= i < |name| :: IsAlnum(name[i])
  {
  }

  lemma AssignTail(name: string, value: string)
    ensures var p := name + " = " + value; |name| + 2 <= |p| && p[|name| + 2..] == " " + value && p == name + (" = " + value)
    ensures var tail := " = " + value; tail != "" && tail[0] == ' ' && !IsAlnum(tail[0])
  {
  }

  lemma AssignEq(name: string, value: string)
    requires name != "" && forall i | 0 <= i < |name| :: IsAlnum(name[i])
    ensures var p := name + " = " + value; EqLen(p) == |name| + 1 && IsAssignment(p)
  {
    hide EqLen;
    var p := name + " = " + value;
    EqRead(name, "= " + value);
    assert p == name + " " + ("= " + value);
    assert p[|name|] == ' ' && p[|name| + 1] == '=';
  }

  /** An identifier is read up to its end or the size of its buffer. */
  lemma {:induction false} IdentCut(name: string, rest: string, max: nat)
    requires forall i | 0 <= i < |name| :: IsAlnum(name[i])
    requires rest != "" ==> !IsAlnum(rest[0])
    ensures IdentLen(name + rest, max) == if |name| <= max then |name| else max
    ensures (name + rest)[..IdentLen(name + rest, max)] == Take(name, max)
    decreases max
  {
    if |name| <= max {
      IdentRead(name, rest, max);
    } else if max > 0 {
      assert (name + rest)[1..] == name[1..] + rest;
      IdentCut(name[1..], rest, max - 1);
    }
  }

  lemma EqRead(name: string, tail: string)
    requires (forall i | 0 <= i < |name| :: IsAlnum(name[i])) && tail != "" && tail[0] == '='
    ensures EqLen(name + " " + tail) == |name| + 1
  {
    var t := name + " " + tail;
    if name == "" {
      assert t[0] == ' ' && t[1..] == tail;
    } else {
      assert t[0] == name[0] && t[1..] == name[1..] + " " + tail;
      EqRead(name[1..], tail);
    }
  }

  lemma PrintRead(args: P.Args, line: string, n: nat, st: State)
    requires P.FormedArgs(args, 0) && Depth(P.ArgsText(args), 0) == 0 && |P.ArgsText(args)| <= ARG_MAX
    requires Shows(line, n, "print(" + P.ArgsText(args) + ")")
    ensures RunLine(line, st) == st.(out := st.out + P.Shown(args, st.env) + "\n")
  {
    hide P.ArgsText, P.Shown, P.FormedArgs, SkipWs, Indent, Depth, PrintArgs, Idle, RunLine;
    var t := P.ArgsText(args);
    PrintTextRead(t, line, n, st);
    ArgsPrinted(args, "", st.env) by { BlankNothing(); }
    assert "" + t == t;
  }

  /** A print line shows its argument text, whatever that says, as long as it closes the parentheses it opens. */
  lemma PrintTextRead(t: string, line: string, n: nat, st: State)
    requires Depth(t, 0) == 0 && |t| <= ARG_MAX && Shows(line, n, "print(" + t + ")")
    ensures RunLine(line, st) == st.(out := st.out + PrintArgs(t, st.env) + "\n")
  {
    hide SkipWs, Indent, Matching, Depth, PrintArgs;
    var p := "print(" + t + ")";
    assert "print(" <= p && p[6..] == t + ")";
    assert Matching(t + ")", 1) == |t| by {
      ArgMatched(t, ")");
    }
    assert (t + ")")[..|t|] == t;
    assert p[6..6 + |t|] == t;
  }

  lemma {:induction false} ArgsPrinted(args: P.Args, pad: string, env: Env)
    requires P.FormedArgs(args, |pad|) && AllBlank(pad)
    ensures PrintArgs(pad + P.ArgsText(args), env) == P.Shown(args, env)
    decreases args
  {
    hide Print, Formed, Eval, Meaning, Show, AllBlank, PrintArgs;
    var part := pad + Print(args.e);
    PaddedEvaluated(args.e, pad, env);
    NoCommaInPad(pad, Print(args.e));
    match args
    case One(e) => OnePart(part, env);
    case More(e, rest) =>
      MoreParts(part, " " + P.ArgsText(rest), env);
      assert pad + P.ArgsText(args) == part + "," + (" " + P.ArgsText(rest)) by { assert ", " == "," + " "; }
      ArgsPrinted(rest, " ", env) by { assert AllBlank(" ") by { BlankSpace(); } }
  }

  lemma OnePart(t: string, env: Env)
    requires ',' !in t && |t| <= PART_MAX
    ensures PrintArgs(t, env) == Show(Eval(t, env).0)
  {
    hide Eval, Show;
    BodyAll(t, ',', |t|);
    assert t[..|t|] == t;
  }

  lemma MoreParts(part: string, rest: string, env: Env)
    requires ',' !in part && |part| <= PART_MAX
    ensures PrintArgs(part + "," + rest, env) == Show(Eval(part, env).0) + " " + PrintArgs(rest, env)
  {
    hide Eval, Show;
    var tail := "," + rest;
    var t := part + tail;
    assert t == part + "," + rest;
    BodyRead(part, ',', tail, |t|);
    assert t[..|part|] == part && t[|part| + 1..] == rest;
  }

  lemma BlankSpace()
    ensures AllBlank(" ")
  {
  }

  lemma NoCommaInPad(pad: string, t: string)
    requires AllBlank(pad) && ',' !in t
    ensures ',' !in pad + t
  {
  }

  lemma PaddedEvaluated(e: Expr, pad: string, env: Env)
    requires Formed(e) && AllBlank(pad)
    ensures Eval(pad + Print(e), env).0 == Meaning(e, env)
  {
    hide Print, Formed, Eval, Meaning, AllBlank, Ends;
    BlankNothing();
    BlankEnds("");
    EvalPrinted(e, pad, "", env);
    assert pad + Print(e) + "" == pad + Print(e);
  }
}
