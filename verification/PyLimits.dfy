/** Where the interpreter's scans of raw text give up the meaning of a program: they cut at commas, colons and
    parentheses without looking at quotes, and read loop bounds as digits. Each limit has its exact condition
    and a script that runs into it. */
module PyLimits {
  import opened CText
  import opened PyExpr
  import opened PyBlock
  import opened PyLayout
  import opened PyRoundTrip
  import opened PyBlockProof
  import P = PyProgram

  predicate IsQuote(c: char) {
    c == '"' || c == '\''
  }

  // ---- cutting at a character ----

  lemma {:induction false} BodyStops(t: string, stop: char, max: nat)
    ensures var n := BodyLen(t, stop, max);
      stop !in t[..n] && (n == max || n == |t| || t[n] == stop)
  {
    if max > 0 && t != "" && t[0] != stop {
      BodyStops(t[1..], stop, max - 1);
      var n := BodyLen(t[1..], stop, max - 1);
      assert t[..1 + n] == [t[0]] + t[1..][..n];
    }
  }

  /** A header's text is read whole exactly when it is free of the stop character and fits the buffer. */
  lemma BeforeIff(t: string, stop: char, tail: string, max: nat)
    ensures Before(t + [stop] + tail, stop, max) == t <==> stop !in t && |t| <= max
  {
    BodyStops(t + [stop] + tail, stop, max);
    if stop !in t && |t| <= max {
      BeforeStop(t, stop, tail, max);
    }
  }

  lemma CondIff(cond: Expr)
    ensures Before(Print(cond) + ":", ':', ARG_MAX) == Print(cond) <==> ':' !in Print(cond) && |Print(cond)| <= ARG_MAX
  {
    hide Print, Before;
    BeforeIff(Print(cond), ':', "", ARG_MAX);
    assert Print(cond) + ":" + "" == Print(cond) + ":";
  }

  /** The first part of print's arguments is its first argument exactly when that has no comma and fits the buffer. */
  lemma PartIff(t: string, tail: string)
    requires tail != "" ==> tail[0] == ','
    ensures var args := t + tail;
      Take(args[..BodyLen(args, ',', |args|)], PART_MAX) == t <==> ',' !in t && |t| <= PART_MAX
  {
    var args := t + tail;
    var n := BodyLen(args, ',', |args|);
    BodyStops(args, ',', |args|);
    if ',' !in t {
      assert n == |t| by {
        if tail == "" {
          assert args == t;
          BodyAll(t, ',', |args|);
        } else {
          BodyRead(t, ',', tail, |args|);
        }
      }
      assert args[..n] == t;
    } else {
      var k :| 0 <= k < |t| && t[k] == ',';
      assert args[k] == ',';
      forall i | 0 <= i < n
        ensures args[i] != ','
      {
        assert args[..n][i] == args[i];
      }
    }
  }

  // ---- a literal that is cut ----

  /** Without its closing quote a literal reads as what is left of it. */
  lemma OpenLiteral(q: char, a: string, env: Env)
    requires IsQuote(q) && q !in a && |a| <= STR_MAX
    ensures Eval([q] + a, env) == (PyVal(StrVal, 0, a), "")
  {
    hide Eval, Primary, SkipWs, Quoted;
    var t := [q] + a;
    assert t[0] == q && t[1..] == a;
    QuotedOpen(q, a);
    EmptyEnds();
    SkipNothing(t);
    LiteralPrimary(t, env);
    PrimaryAlone(t, PyVal(StrVal, 0, a), "", env);
  }

  lemma QuotedOpen(q: char, a: string)
    requires q !in a && |a| <= STR_MAX
    ensures Quoted([q] + a) == (PyVal(StrVal, 0, a), "")
  {
    var t := [q] + a;
    assert t[1..] == a;
    BodyAll(a, q, STR_MAX);
    assert t[1..1 + |a|] == a && t[1 + |a|..] == "";
  }

  lemma LiteralPrimary(t: string, env: Env)
    requires t != "" && IsQuote(t[0]) && SkipWs(t) == t
    ensures Primary(t, env) == Quoted(t)
  {
    hide Quoted, ReadNum, Named;
  }

  lemma LiteralEvaluated(q: char, body: string, env: Env)
    requires IsQuote(q) && q !in body && |body| <= STR_MAX
    ensures Eval([q] + body + [q], env) == (PyVal(StrVal, 0, body), "")
  {
    hide Eval;
    EvalWhole(Str(q, body), env);
  }

  // ---- commas ----

  lemma CommaIn(t: string) returns (a: string, b: string)
    requires ',' in t
    ensures t == a + "," + b && ',' !in a
  {
    BodyStops(t, ',', |t|);
    var n := BodyLen(t, ',', |t|);
    assert t[..n] + t[n..] == t;
    assert n < |t|;
    a, b := t[..n], t[n + 1..];
  }

  /** print shows a literal as it stands exactly when there is no comma in it. */
  lemma PrintedLiteral(q: char, body: string, env: Env)
    requires IsQuote(q) && q !in body && |body| + 2 <= PART_MAX
    ensures PrintArgs([q] + body + [q], env) == body <==> ',' !in body
  {
    hide Eval, PrintArgs;
    var t := [q] + body + [q];
    if ',' in body {
      var a, b := CommaIn(body);
      assert |a| <= STR_MAX && forall i | 0 <= i < |a| :: a[i] == body[i];
      CutLiteral(q, a, b + [q], env);
      assert t == [q] + a + "," + (b + [q]);
      SpaceForComma(a, b, PrintArgs(b + [q], env));
    } else {
      LiteralEvaluated(q, body, env);
      OnePart(t, env);
    }
  }

  lemma SpaceForComma(a: string, b: string, c: string)
    ensures a + " " + c != a + "," + b
  {
    assert (a + " " + c)[|a|] == ' ' && (a + "," + b)[|a|] == ',';
  }

  /** Up to its first comma a literal is shown, then a space in place of the comma. */
  lemma CutLiteral(q: char, a: string, b: string, env: Env)
    requires IsQuote(q) && q !in a && ',' !in a && |a| < PART_MAX
    ensures PrintArgs([q] + a + "," + b, env) == a + " " + PrintArgs(b, env)
  {
    hide Eval, PrintArgs;
    OpenLiteral(q, a, env);
    MoreParts([q] + a, b, env);
  }

  /** print("Hello, world") says `Hello 0`. */
  lemma HelloWorld(line: string, n: nat, st: State)
    requires "world" !in st.env && Shows(line, n, P.Head(HELLO))
    ensures RunLine(line, st) == st.(out := st.out + "Hello 0" + "\n")
    ensures P.ExecStmt(HELLO, st) == st.(out := st.out + "Hello, world" + "\n")
  {
    hide Eval, PrintArgs, RunLine, Shows, Depth;
    var q := ['"'];
    var t := q + "Hello, world" + q;
    HelloHead();
    DepthFlat(t, 0);
    PrintTextRead(t, line, n, st);
    CutLiteral('"', "Hello", " world" + q, st.env);
    WorldShown(st.env);
    assert "Hello" + " " + "0" == "Hello 0";
  }

  /** The statement print("Hello, world"). */
  const HELLO: P.Stmt := P.Print(P.One(Str('"', "Hello, world")))

  lemma HelloHead()
    ensures var q := ['"'];
      && P.Head(HELLO) == "print(" + (q + "Hello, world" + q) + ")"
      && q + "Hello, world" + q == q + "Hello" + "," + (" world" + q)
  {
    assert "Hello, world" == "Hello" + "," + " world";
  }

  lemma WorldShown(env: Env)
    requires "world" !in env
    ensures PrintArgs(" world" + ['"'], env) == "0"
  {
    hide Eval, Formed;
    var q := ['"'];
    var t := " world" + q;
    WorldIsName();
    QuoteEnds(q);
    BlankSpace();
    EvalPrinted(Var("world"), " ", q, env);
    assert " " + "world" == " world";
    OnePart(t, env);
  }

  lemma WorldIsName()
    ensures Formed(Var("world"))
  {
  }

  lemma QuoteEnds(t: string)
    requires t != "" && IsQuote(t[0])
    ensures Ends(t, 5) && SkipWs(t) == t
  {
  }

  // ---- colons ----

  /** A header whose first colon is inside its leading literal: the condition is the cut literal, which is false. */
  lemma CutCondition(q: char, a: string, tail: string, env: Env)
    requires IsQuote(q) && q !in a && ':' !in a && |a| <= STR_MAX
    ensures var cond := Before([q] + a + ":" + tail, ':', ARG_MAX);
      cond == [q] + a && Eval(cond, env).0 == PyVal(StrVal, 0, a)
  {
    hide Eval, Before;
    BeforeStop([q] + a, ':', tail, ARG_MAX) by { assert STR_MAX < ARG_MAX; }
    OpenLiteral(q, a, env);
  }

  /** Such an `if` or `elif` line never takes its arm, whatever the condition means. */
  lemma CutArm(lines: seq<string>, i: nat, end: nat, word: string, q: char, a: string, tail: string, n: nat, st: State)
    requires (word == "if " || word == "elif ") && IsQuote(q) && q !in a && ':' !in a && |a| <= STR_MAX
    requires i < end <= |lines| && Shows(lines[i], n, word + ([q] + a + ":" + tail))
    ensures RunBlock(lines, i, end, st) == RunOtherwise(lines, BlockEnd(lines, i + 1, n), end, n, st)
  {
    hide Eval, Before, RunBlock, RunOtherwise, BlockEnd, SkipWs, Indent, Idle;
    var c := [q] + a + ":" + tail;
    var p := word + c;
    CutCondition(q, a, tail, st.env);
    assert p[0] == word[0] && p[|word|..] == c && word <= p;
    ArmIsRun(lines, i, end, p, n, st);
  }

  /** Such a `while` loop runs no round. */
  lemma CutWhile(lines: seq<string>, i: nat, end: nat, q: char, a: string, tail: string, n: nat, st: State)
    requires IsQuote(q) && q !in a && ':' !in a && |a| <= STR_MAX
    requires i < end <= |lines| && Shows(lines[i], n, "while " + ([q] + a + ":" + tail))
    ensures RunBlock(lines, i, end, st) == RunBlock(lines, BlockEnd(lines, i + 1, n), end, st)
  {
    hide Eval, Before, RunBlock, BlockEnd, Shows;
    var c := [q] + a + ":" + tail;
    var p := "while " + c;
    CutCondition(q, a, tail, st.env);
    assert p[0] == 'w' && p[6..] == c && "while " <= p;
    WhileIsRun(lines, i, end, p, n, BlockEnd(lines, i + 1, n), st);
    var cond := Before(p[6..], ':', ARG_MAX);
    assert RunWhile(lines, cond, i + 1, BlockEnd(lines, i + 1, n), 0, st) == st by { hide RunBlock, Before, Eval, BlockEnd; }
  }

  const COLON_IF: P.Stmt := P.If(Bin(Eq, Str('"', "a:b"), Str('"', "a:b"), " ", " "), P.Seq(P.Assign("x", Num(1)), P.Nil), P.NoElse)

  /** if "a:b" == "a:b": does not run its body. */
  lemma ColonScript(st: State)
    ensures P.StmtLines(COLON_IF, "", " ") == ["if \"a:b\" == \"a:b\":", " x = 1"]
    ensures RunBlock(P.StmtLines(COLON_IF, "", " "), 0, 2, st) == st
    ensures P.ExecStmt(COLON_IF, st) == st.(env := SetVar(st.env, "x", Int(1)))
  {
    hide RunBlock, SetVar, P.StmtLines, P.ExecStmt;
    var lines := ["if \"a:b\" == \"a:b\":", " x = 1"];
    ColonLines();
    ColonMeans(st);
    var tail := "b\" == \"a:b\":";
    var p := "if " + (['"'] + "a" + ":" + tail);
    assert lines[0] == p;
    assert Shows(lines[0], 0, p) by {
      assert "" + p == p;
      BlankNothing();
      LineShows("", p);
    }
    CutArm(lines, 0, 2, "if ", '"', "a", tail, 0, st);
    assert BlockEnd(lines, 1, 0) == 2 by { ColonBody(); }
    assert RunOtherwise(lines, 2, 2, 0, st) == st by { NothingRuns(lines, st); }
  }

  lemma NothingRuns(lines: seq<string>, st: State)
    ensures RunBlock(lines, |lines|, |lines|, st) == st
  {
  }

  lemma ColonBody()
    ensures BlockEnd(["if \"a:b\" == \"a:b\":", " x = 1"], 1, 0) == 2
  {
    hide SkipWs;
    var lines := ["if \"a:b\" == \"a:b\":", " x = 1"];
    assert Indent(lines[1]) == 1 by {
      BlankSpace();
      IndentPad(" ", "x = 1");
      assert " " + "x = 1" == lines[1];
    }
  }

  lemma ColonLines()
    ensures P.StmtLines(COLON_IF, "", " ") == ["if \"a:b\" == \"a:b\":", " x = 1"]
  {
    hide Itoa, P.Head, P.Lines;
    ColonHead();
    ColonBodyLines();
    assert P.ChainLines(P.NoElse, "", " ") == [];
  }

  lemma ColonHead()
    ensures "" + P.Head(COLON_IF) == "if \"a:b\" == \"a:b\":"
  {
    assert Print(Str('"', "a:b")) == "\"a:b\"";
    assert Print(COLON_IF.cond) == "\"a:b\" == \"a:b\"";
  }

  lemma ColonBodyLines()
    ensures P.Lines(COLON_IF.body, "" + " ", " ") == [" x = 1"]
  {
    hide Itoa, P.Head;
    var b := COLON_IF.body;
    assert P.Lines(b.tail, "" + " ", " ") == [];
    assert P.StmtLines(b.head, "" + " ", " ") == ["" + " " + P.Head(b.head)];
    ColonBodyLine();
  }

  lemma ColonBodyLine()
    ensures "" + " " + P.Head(P.Assign("x", Num(1))) == " x = 1"
  {
    hide Itoa;
    OneDigit();
    assert P.Head(P.Assign("x", Num(1))) == "x = 1";
  }

  lemma OneDigit()
    ensures Itoa(1) == "1"
  {
  }

  lemma ColonMeans(st: State)
    ensures P.ExecStmt(COLON_IF, st) == st.(env := SetVar(st.env, "x", Int(1)))
  {
    hide SetVar;
    assert P.Holds(COLON_IF.cond, st);
    var body := COLON_IF.body;
    assert P.Exec(body, st) == P.Exec(body.tail, P.ExecStmt(body.head, st));
  }

  // ---- parentheses ----

  lemma {:induction false} MatchingStops(t: string, rest: string, d: nat)
    requires Depth(t, d) < 0
    ensures Matching(t + rest, d + 1) < |t|
  {
    var d' := Nest(t[0], d);
    var u := t + rest;
    assert u[0] == t[0] && u[1..] == t[1..] + rest;
    if d' >= 0 {
      MatchingStops(t[1..], rest, d');
    }
  }

  /** Where the collector stops, by the parentheses t leaves open or closes too early. */
  lemma MatchingEnds(t: string, rest: string)
    ensures var k := Matching(t + ")" + rest, 1);
      && (Depth(t, 0) < 0 ==> k < |t|) && (Depth(t, 0) == 0 ==> k == |t|) && (Depth(t, 0) > 0 ==> k > |t|)
  {
    hide Depth;
    var close := ")" + rest;
    assert t + ")" + rest == t + close;
    var d := Depth(t, 0);
    if d < 0 {
      MatchingStops(t, close, 0);
    } else {
      MatchingSkips(t, close, 0);
      assert close[0] == ')';
    }
  }

  /** The collector of a call takes the whole argument text, and leaves what follows, exactly when the text
      closes the parentheses it opens: literals are not passed over. */
  lemma ArgReadIff(t: string, rest: string)
    requires |t| == ARG_MAX ==> rest != ""
    ensures CallArg("(" + t + ")" + rest) == (t, rest) <==> Depth(t, 0) == 0 && |t| <= ARG_MAX
  {
    hide Matching, Depth, CallArg;
    CallArgCut(t, rest);
    MatchingEnds(t, rest);
    if Depth(t, 0) == 0 && |t| <= ARG_MAX {
      ArgRead(t, rest);
    }
  }

  lemma ArgReadAlways(t: string)
    ensures (forall rest :: CallArg("(" + t + ")" + rest) == (t, rest)) <==> Depth(t, 0) == 0 && |t| <= ARG_MAX
  {
    hide Depth, CallArg;
    ArgReadIff(t, "x");
    if Depth(t, 0) == 0 && |t| <= ARG_MAX {
      forall rest
        ensures CallArg("(" + t + ")" + rest) == (t, rest)
      {
        ArgRead(t, rest);
      }
    }
  }

  lemma CallArgCut(t: string, rest: string)
    ensures var k := Matching(t + ")" + rest, 1);
      var (arg, tail) := CallArg("(" + t + ")" + rest);
      && |arg| == (if k <= ARG_MAX then k else ARG_MAX)
      && |tail| == (if k <= |t| + |rest| then |t| + |rest| - k else 0)
  {
    hide Matching;
    var q := "(" + t + ")" + rest;
    assert q[1..] == t + ")" + rest;
  }

  /** The same collector gathers the arguments of print; what follows the parenthesis does not matter there. */
  lemma PrintTextIff(t: string, rest: string)
    ensures var u := t + ")" + rest;
      && Matching(u, 1) <= |u|
      && (Take(u[..Matching(u, 1)], ARG_MAX) == t
          <==> |t| <= ARG_MAX && (Depth(t, 0) == 0 || (Depth(t, 0) > 0 && |t| == ARG_MAX)))
  {
    hide *;
    MatchingEnds(t, rest);
    TakeIff(t, t + ")" + rest, Matching(t + ")" + rest, 1), Depth(t, 0)) by { StartsWith(t, rest); }
  }

  lemma StartsWith(t: string, rest: string)
    ensures (t + ")" + rest)[..|t|] == t
  {
  }

  lemma TakeIff(t: string, u: string, k: nat, depth: int)
    requires k <= |u| && |t| <= |u| && u[..|t|] == t
    requires (depth < 0 ==> k < |t|) && (depth == 0 ==> k == |t|) && (depth > 0 ==> k > |t|)
    ensures Take(u[..k], ARG_MAX) == t <==> |t| <= ARG_MAX && (depth == 0 || (depth > 0 && |t| == ARG_MAX))
  {
    if k >= |t| {
      assert u[..k][..|t|] == t;
    }
  }

  /** x = len(")") sets x to 0. */
  lemma ParenScript(st: State)
    ensures var s := P.Assign("x", Call("len", Str('"', ")"), "", "", ""));
      && P.Head(s) == "x = len(\")\")"
      && RunLine(P.Head(s), st) == st.(env := SetVar(st.env, "x", Int(0)))
      && P.ExecStmt(s, st) == st.(env := SetVar(st.env, "x", Int(1)))
  {
    hide RunLine, SetVar, Eval, P.Head, P.ExecStmt;
    var t := "len(\")\")";
    var p := "x" + " = " + t;
    ParenHead();
    ParenMeans(st);
    ParenValue(st.env);
    assert " " + t == " len(\")\")";
    XIsName();
    assert p == "x = len(\")\")";
    assert Shows(p, 0, p) by {
      assert "" + p == p;
      BlankNothing();
      LineShows("", p);
    }
    AssignTextRead("x", t, p, 0, st);
  }

  lemma XIsName()
    ensures P.Assignable("x") && Take("x", VAR_MAX) == "x"
  {
  }

  lemma ParenHead()
    ensures P.Head(P.Assign("x", Call("len", Str('"', ")"), "", "", ""))) == "x = len(\")\")"
  {
    assert Print(Str('"', ")")) == "\")\"";
    assert Print(Call("len", Str('"', ")"), "", "", "")) == "len(\")\")";
  }

  lemma ParenMeans(st: State)
    ensures P.ExecStmt(P.Assign("x", Call("len", Str('"', ")"), "", "", "")), st) == st.(env := SetVar(st.env, "x", Int(1)))
  {
    hide SetVar;
    var e := Call("len", Str('"', ")"), "", "", "");
    assert Meaning(e.arg, st.env) == PyVal(StrVal, 0, ")");
    assert Meaning(e, st.env) == Int(|")"|);
  }

  lemma ParenCollected()
    ensures CallArg("(\")\")") == ("\"", "\")")
  {
    hide Depth;
    var q := "(\")\")";
    DepthFlat("\"", 0);
    ArgRead("\"", "\")");
    assert "(" + "\"" + ")" + "\")" == q;
  }

  lemma ParenValue(env: Env)
    ensures Eval(" len(\")\")", env).0 == Int(0)
  {
    hide Eval, Primary, Named, CallArg, Apply, SkipWs, Ends;
    var q := "(\")\")";
    var t := "len(\")\")";
    assert t == "len" + q;
    ParenCollected();
    IdentRead("len", q, NAME_MAX);
    assert t[..3] == "len" && t[3..] == q;
    SkipParen(q);
    NamedCall("len", t, q, "\"", "\")", env);
    SkipNothing(t);
    LenIsName();
    NamedPrimary("len", t, q, env);
    OpenLiteral('"', "", env);
    assert ['"'] + "" == "\"";
    assert Apply("len", "\"", PyVal(StrVal, 0, "")) == Int(0) by { LenOfNothing(); }
    QuoteEnds("\")");
    PrimaryAlone(t, Int(0), "\")", env);
    SpaceSkipped(t);
    EvalSkips(" " + t, t, env);
    assert " " + t == " len(\")\")";
  }

  lemma EvalSkips(t: string, p: string, env: Env)
    requires SkipWs(t) == p
    ensures Eval(t, env) == Eval(p, env)
  {
    hide Cmp, BoolLoop;
    SkipTwice(t);
  }

  lemma SpaceSkipped(t: string)
    requires t != "" && !IsBlank(t[0])
    ensures SkipWs(" " + t) == t
  {
    BlankSpace();
    SkipPad(" ", t);
  }

  lemma LenOfNothing()
    ensures Apply("len", "\"", PyVal(StrVal, 0, "")) == Int(0)
  {
  }

  lemma LenIsName()
    ensures IsName("len") && !IsBlank('l')
  {
  }

  // ---- loop bounds ----

  /** The number at the very front of a printed expression, or 0 when it starts with anything else. */
  function FirstNum(e: Expr): int {
    match e
    case Num(n) => n
    case Bin(_, l, _, _, _) => FirstNum(l)
    case _ => 0
  }

  /** Reading a printed expression as digits gives its first number alone. */
  lemma {:induction false} AtoiPrinted(e: Expr, rest: string)
    requires Formed(e) && (rest != "" ==> !IsDigit(rest[0]))
    ensures Atoi(Print(e) + rest) == FirstNum(e)
  {
    hide Formed, Print, Atoi;
    match e
    case Num(n) =>
      NumText(n);
      AtoiNumber(n, rest);
    case Bin(op, l, r, before, after) =>
      BinParts(e);
      var tail := e.before + Spell(e.op) + (e.after + Print(e.right) + rest);
      OperatorIsNoDigit(op, before, e.after + Print(e.right) + rest);
      AtoiPrinted(l, tail);
      PrintBin(e, "", rest);
      assert "" + Print(e) == Print(e) && "" + Print(l) == Print(l);
    case _ =>
      NoNumberFirst(e);
      AtoiNoNumber(Print(e) + rest);
  }

  lemma NumText(n: int)
    ensures Print(Num(n)) == Itoa(n)
  {
  }

  lemma OperatorIsNoDigit(op: Op, before: string, tail: string)
    requires AllBlank(before) && (OpLevel(op) == 5 ==> before != "")
    ensures var t := before + Spell(op) + tail; t != "" && !IsDigit(t[0])
  {
    assert (before + Spell(op) + tail)[0] == if before == "" then Spell(op)[0] else before[0];
  }

  lemma NoNumberFirst(e: Expr)
    requires Formed(e) && !e.Num? && !e.Bin?
    ensures var c := Print(e); c != "" && c[0] != ' ' && c[0] != '-' && !IsDigit(c[0])
  {
    PrintStarts(e);
  }

  lemma AtoiNoNumber(t: string)
    requires t != "" && t[0] != ' ' && t[0] != '-' && !IsDigit(t[0])
    ensures Atoi(t) == 0
  {
  }

  /** range(e) gives the loop bounds its meaning calls for exactly when e's first number is its value. */
  lemma RangeOfExpr(e: Expr, env: Env)
    requires Formed(e) && ',' !in Print(e) && Depth(Print(e), 0) == 0 && |Print(e)| <= ARG_MAX
    ensures Bounds(Eval("range(" + Print(e) + ")", env).0) == (0, FirstNum(e))
    ensures Bounds(Eval("range(" + Print(e) + ")", env).0) == (0, Meaning(e, env).ival) <==> FirstNum(e) == Meaning(e, env).ival
  {
    hide Eval, Print, Formed, Meaning, Depth, Atoi;
    var t := Print(e);
    RangeEvaluated(t, env);
    AtoiPrinted(e, "");
    assert t + "" == t;
    OneBound(t);
  }

  /** Of two bounds each is read so, the first one whatever commas the second one has. */
  lemma RangeOfTwo(a: Expr, b: Expr, env: Env)
    requires Formed(a) && Formed(b) && ',' !in Print(a) && |Print(a)| <= RANGE_MAX
    requires var t := Print(a) + ", " + Print(b); Depth(t, 0) == 0 && |t| <= ARG_MAX
    ensures Bounds(Eval("range(" + (Print(a) + ", " + Print(b)) + ")", env).0) == (FirstNum(a), FirstNum(b))
  {
    hide Eval, Print, Formed, Depth, Atoi, Bounds;
    RangeEvaluated(Print(a) + ", " + Print(b), env);
    AtoiPrinted(a, "");
    AtoiPrinted(b, "");
    assert Print(a) + "" == Print(a) && Print(b) + "" == Print(b);
    TwoBounds(Print(a), Print(b));
  }

  /** A loop over range(n) for a variable n runs no round, whatever n holds. */
  lemma VariableRangeRunsNone(lines: seq<string>, i: nat, end: nat, name: string, n: string, ind: nat, st: State)
    requires P.IsVar(name) && IsName(n) && i < end <= |lines|
    requires Shows(lines[i], ind, "for " + name + " in range(" + n + "):")
    ensures RunBlock(lines, i, end, st) == RunBlock(lines, BlockEnd(lines, i + 1, ind), end, st)
  {
    hide RunBlock, Eval, BlockEnd, Shows, ForVar, ForIter, Depth, Bounds, Atoi;
    var p := "for " + name + " in range(" + n + "):";
    NamePlain(n);
    ForTextRead(name, n, st.env);
    OneBound(n);
    AtoiNoNumber(n);
    var be := BlockEnd(lines, i + 1, ind);
    ForIsRun(lines, i, end, p, ind, be, st);
    NoRounds(lines, name, i + 1, be, st);
  }

  lemma NamePlain(n: string)
    requires IsName(n)
    ensures ':' !in n && ',' !in n && |n| + 7 <= PART_MAX && Depth(n, 0) == 0
    ensures n[0] != ' ' && n[0] != '-' && !IsDigit(n[0])
  {
    hide Depth;
    assert forall i | 0 <= i < |n| :: n[i] != '(' && n[i] != ')';
    DepthFlat(n, 0);
  }

  // ---- long names and literals ----

  /** A literal is read whole exactly when it fits the 127 characters of a text value. */
  lemma LiteralIff(q: char, body: string, rest: string)
    requires q !in body
    ensures Quoted([q] + body + [q] + rest) == (PyVal(StrVal, 0, body), rest) <==> |body| <= STR_MAX
  {
    hide Quoted;
    if |body| <= STR_MAX {
      QuotedRead(q, body, rest);
    } else {
      QuotedSize([q] + body + [q] + rest);
    }
  }

  lemma QuotedSize(p: string)
    requires p != ""
    ensures |Quoted(p).0.sval| <= STR_MAX
  {
  }

  /** A variable is looked up under its name exactly when that has at most 63 characters. */
  lemma NameIff(name: string, rest: string, env: Env)
    requires P.IsIdent(name) && name != "not" && Ends(rest, 0)
    ensures Named(name + rest, env) == (Lookup(name, env), SkipWs(rest)) <==> |name| <= NAME_MAX
  {
    hide Eval, CallArg, Apply, Named, IdentLen;
    if |name| <= NAME_MAX {
      VarRead(name, rest, env);
    } else {
      IdentCut(name, rest, NAME_MAX);
      var q := (name + rest)[NAME_MAX..];
      assert q == name[NAME_MAX..] + rest;
      assert q[0] == name[NAME_MAX] && IsAlnum(name[NAME_MAX]);
      NamedLong(name + rest, q, env);
      SkipShrinks(rest);
    }
  }

  lemma NamedLong(p: string, q: string, env: Env)
    requires IdentLen(p, NAME_MAX) == NAME_MAX <= |p| && q == p[NAME_MAX..] && q != "" && IsAlnum(q[0])
    ensures Named(p, env).1 == q
  {
    hide Eval, CallArg, Apply, IdentLen;
    SkipNothing(q);
  }

  lemma SkipShrinks(t: string)
    ensures |SkipWs(t)| <= |t|
  {
  }

  /** name = 1, x = name: under a name of more than 31 characters x is 0, where the meaning is 1. */
  lemma LongName(name: string, ind: string, st: State)
    requires P.Bindable(name) && IsName(name) && |name| > VAR_MAX && name !in st.env && |st.env| < MAX_VARS && name != "x"
    requires AllBlank(ind)
    ensures var lines := P.Lines(TwoLines(name), ind, "");
      var cut := Take(name, VAR_MAX);
      && |lines| == 2
      && RunBlock(lines, 0, 2, st) == st.(env := SetVar(SetVar(st.env, cut, Int(1)), "x", Int(0)))
      && P.Exec(TwoLines(name), st) == st.(env := SetVar(SetVar(st.env, name, Int(1)), "x", Int(1)))
  {
    hide RunBlock, P.Exec, P.Lines, SetVar, Formed, Meaning, P.Head, Take, AllBlank, Shows;
    var lines := P.Lines(TwoLines(name), ind, "");
    var st1 := st.(env := SetVar(st.env, Take(name, VAR_MAX), Int(1)));
    TwoLinesLaid(name, ind);
    TwoFormed(name);
    LongStays(name, st.env);
    AssignShows(P.Assign(name, Num(1)), ind);
    AssignShows(P.Assign("x", Var(name)), ind);
    XIsName();
    MeansOne(name, st.env);
    MeansLookup(name, st1.env);
    AssignLine(lines, 0, 2, name, Num(1), |ind|, st);
    AssignLine(lines, 1, 2, "x", Var(name), |ind|, st1);
    NothingRuns(lines, st1.(env := SetVar(st1.env, "x", Int(0))));
    TwoMean(name, st);
  }

  function TwoLines(name: string): P.Block {
    P.Seq(P.Assign(name, Num(1)), P.Seq(P.Assign("x", Var(name)), P.Nil))
  }

  lemma TwoLinesLaid(name: string, ind: string)
    ensures P.Lines(TwoLines(name), ind, "") == [ind + P.Head(P.Assign(name, Num(1))), ind + P.Head(P.Assign("x", Var(name)))]
  {
    hide P.Head;
    var b := TwoLines(name);
    assert P.Lines(b.tail.tail, ind, "") == [];
    assert P.Lines(b.tail, ind, "") == [ind + P.Head(P.Assign("x", Var(name)))];
  }

  lemma TwoFormed(name: string)
    requires IsName(name)
    ensures Formed(Num(1)) && Formed(Var(name))
  {
  }

  lemma AssignShows(s: P.Stmt, ind: string)
    requires s.Assign? && P.Bindable(s.name) && AllBlank(ind)
    ensures Shows(ind + P.Head(s), |ind|, P.Head(s))
  {
    hide Print, Shows;
    AssignText(s.name, s.e);
    assert P.Head(s)[0] == s.name[0];
    LineShows(ind, P.Head(s));
  }

  /** Under its cut name the variable is not found by its whole one. */
  lemma LongStays(name: string, env: Env)
    requires |name| > VAR_MAX && name !in env
    ensures name !in SetVar(env, Take(name, VAR_MAX), Int(1))
  {
  }

  lemma MeansOne(name: string, env: Env)
    ensures Meaning(Num(1), env) == Int(1)
  {
  }

  lemma MeansLookup(name: string, env: Env)
    requires name !in env
    ensures Meaning(Var(name), env) == Int(0)
  {
  }

  lemma TwoMean(name: string, st: State)
    requires name !in st.env && |st.env| < MAX_VARS
    ensures P.Exec(TwoLines(name), st) == st.(env := SetVar(SetVar(st.env, name, Int(1)), "x", Int(1)))
  {
    var b := TwoLines(name);
    var st1 := P.ExecStmt(b.head, st);
    assert st1.env == st.env[name := Int(1)];
    var st2 := P.ExecStmt(b.tail.head, st1);
    assert P.Exec(b.tail, st1) == P.Exec(b.tail.tail, st2);
  }

  /** Thirty-two letters. */
  const LONG: string := seq(32, _ => 'a')

  lemma LongScript(st: State)
    requires LONG !in st.env && |st.env| < MAX_VARS
    ensures RunBlock(P.Lines(TwoLines(LONG), "", ""), 0, |P.Lines(TwoLines(LONG), "", "")|, st)
         == st.(env := SetVar(SetVar(st.env, Take(LONG, VAR_MAX), Int(1)), "x", Int(0)))
  {
    hide RunBlock, P.Exec, P.Lines, SetVar;
    LongIsName();
    BlankNothing();
    LongName(LONG, "", st);
  }

  lemma LongIsName()
    ensures P.Bindable(LONG) && IsName(LONG) && |LONG| > VAR_MAX && LONG != "x"
  {
    assert LONG[0] == 'a' && |LONG| == 32;
  }

  /** A `for` loop over such a name binds the first 31 characters and takes the rest for its iterable: when that is no
      variable, the loop runs no round. */
  lemma LongLoop(lines: seq<string>, i: nat, end: nat, name: string, args: string, n: nat, st: State)
    requires P.IsIdent(name) && |name| > VAR_MAX && IsName(name[VAR_MAX..]) && name[VAR_MAX..] != "in" && name[VAR_MAX..] !in st.env
    requires ':' !in args && |name| - VAR_MAX + 11 + |args| <= PART_MAX
    requires i < end <= |lines| && Shows(lines[i], n, "for " + name + " in range(" + args + "):")
    ensures RunBlock(lines, i, end, st) == RunBlock(lines, BlockEnd(lines, i + 1, n), end, st)
  {
    hide RunBlock, Eval, BlockEnd, Shows, ForVar, ForIter, Bounds;
    var b := name[VAR_MAX..];
    var p := "for " + name + " in range(" + args + "):";
    ForShape(name, args);
    LongIter(name, args);
    RestIsVariable(b, " in " + ("range(" + args + ")"), st.env);
    var be := BlockEnd(lines, i + 1, n);
    ForIsHeader(name + (" in " + ("range(" + args + ")" + ":")));
    ForIsRun(lines, i, end, p, n, be, st);
    assert Bounds(Int(0)) == (0, 0) by { NoBounds(); }
    NoRounds(lines, ForVar(p), i + 1, be, st);
  }

  lemma NoBounds()
    ensures Bounds(Int(0)) == (0, 0)
  {
  }

  lemma NoRounds(lines: seq<string>, name: string, bs: nat, be: nat, st: State)
    requires be <= |lines|
    ensures RunFor(lines, name, 0, 0, bs, be, st) == st
  {
    hide RunBlock;
  }

  /** What is read as a variable in front of the word `in` gives its value. */
  lemma RestIsVariable(b: string, rest: string, env: Env)
    requires IsName(b) && b !in env && rest != "" && rest[0] == ' ' && " in " <= rest
    ensures Eval(b + rest, env).0 == Int(0)
  {
    hide Eval, Print, Formed, SkipWs, Ends;
    assert Formed(Var(b)) && Print(Var(b)) == b by { VarPrinted(b); }
    InEnds(rest);
    BlankNothing();
    EvalPrinted(Var(b), "", rest, env);
    assert "" + b + rest == b + rest;
    MeansLookup(b, env);
  }

  lemma VarPrinted(b: string)
    requires IsName(b)
    ensures Formed(Var(b)) && Print(Var(b)) == b
  {
  }

  lemma InEnds(rest: string)
    requires " in " <= rest
    ensures Ends(rest, 5)
  {
    var t := rest[1..];
    assert rest == " " + t && t[0] == 'i' && t[1] == 'n';
    BlankSpace();
    SkipPad(" ", t);
    SkipNothing(t);
  }

  lemma LongIter(name: string, args: string)
    requires P.IsIdent(name) && |name| > VAR_MAX && IsName(name[VAR_MAX..]) && name[VAR_MAX..] != "in"
    requires ':' !in args && |name| - VAR_MAX + 11 + |args| <= PART_MAX
    ensures var p := "for " + (name + (" in " + ("range(" + args + ")" + ":")));
      "for " <= p && ForIter(p) == name[VAR_MAX..] + (" in " + ("range(" + args + ")"))
  {
    hide IdentLen, Before, SkipWs;
    var b := name[VAR_MAX..];
    var call := "range(" + args + ")";
    var rest := " in " + (call + ":");
    var p := "for " + (name + rest);
    assert p[4..] == name + rest;
    IdentCut(name, rest, VAR_MAX);
    var q := b + rest;
    assert (name + rest)[VAR_MAX..] == q;
    assert q[0] == b[0];
    SkipNothing(q);
    NotIn(b, rest);
    LongText(b, args);
    BeforeStop(b + (" in " + call), ':', "", PART_MAX);
    assert b + (" in " + call) + ":" + "" == q;
  }

  lemma NotIn(b: string, rest: string)
    requires IsName(b) && b != "in" && rest != "" && rest[0] == ' '
    ensures !("in " <= b + rest)
  {
    NotKeyword("in", b, rest);
    assert "in" + [' '] == "in ";
  }

  lemma LongText(b: string, args: string)
    requires IsName(b) && ':' !in args && |b| + 11 + |args| <= PART_MAX
    ensures var t := b + (" in " + ("range(" + args + ")")); ':' !in t && |t| <= PART_MAX
  {
  }
}
