/** What branches and loops do on plain texts: which arm runs, and how often a loop does. */
module PyRuns {
  import opened CText
  import opened PyExpr
  import opened PyBlock
  import opened PyRoundTrip
  import opened PyLayout
  import opened PyBlockProof
  import opened PyValues
  import P = PyProgram

  // ---- branches ----

  /** The arm of an `if` or `elif` runs exactly when the number of its condition is not zero; the rest of the chain decides
      otherwise; `else` always runs. */
  lemma ArmsDecide(cond: Expr, body: P.Block, chain: P.Chain, st: State)
    requires Formed(cond)
    ensures P.ExecStmt(P.If(cond, body, chain), st)
         == if ValueOf(cond, st.env).ival != 0 then P.Exec(body, st) else P.ExecChain(chain, st)
    ensures P.ExecChain(P.Elif(cond, body, chain), st)
         == if ValueOf(cond, st.env).ival != 0 then P.Exec(body, st) else P.ExecChain(chain, st)
    ensures P.ExecChain(P.Else(body), st) == P.Exec(body, st) && P.ExecChain(P.NoElse, st) == st
  {
    hide Eval, Meaning, Print, Formed, P.Exec;
    ValueIsMeaning(cond, st.env);
  }

  /** A round of a `while` loop runs exactly when the number of its condition is not zero and rounds are left. */
  lemma RoundsDecide(cond: Expr, body: P.Block, rounds: nat, st: State)
    requires Formed(cond)
    ensures P.ExecWhile(cond, body, rounds, st)
         == if ValueOf(cond, st.env).ival != 0 && rounds > 0
            then P.ExecWhile(cond, body, rounds - 1, P.Exec(body, st)) else st
  {
    hide Eval, Meaning, Print, Formed, P.Exec;
    ValueIsMeaning(cond, st.env);
  }

  // ---- a counting loop ----

  /** x < n */
  function Below(x: string, n: int): Expr {
    Bin(Lt, Var(x), Num(n), " ", " ")
  }

  /** Where counting from k up to n in so many rounds ends. */
  function Ended(k: int, n: int, rounds: nat): int {
    if n <= k then k else if n - k <= rounds then n else k + rounds
  }

  lemma {:induction false} CountsTo(x: string, n: int, rounds: nat, k: int, st: State)
    requires x in st.env && st.env[x] == Int(k)
    ensures P.ExecWhile(Below(x, n), Counting(x), rounds, st) == st.(env := st.env[x := Int(Ended(k, n, rounds))])
    decreases rounds
  {
    hide P.Exec, Counting;
    BelowIs(x, n, k, st);
    if rounds > 0 && k < n {
      var st1 := st.(env := st.env[x := Int(k + 1)]);
      CountsOnce(x, k, st);
      CountsTo(x, n, rounds - 1, k + 1, st1);
      assert st.env[x := Int(k + 1)][x := Int(Ended(k, n, rounds))] == st.env[x := Int(Ended(k, n, rounds))];
    } else {
      assert st.env[x := Int(k)] == st.env;
    }
  }

  lemma BelowIs(x: string, n: int, k: int, st: State)
    requires x in st.env && st.env[x] == Int(k)
    ensures P.Holds(Below(x, n), st) <==> k < n
  {
    var e := Below(x, n);
    assert Meaning(e.left, st.env) == Int(k) && Meaning(e.right, st.env) == Int(n);
  }

  /** The script `while i < n:` with `i = i + 1` in its body counts up to n, or 100000 rounds. */
  lemma CountingScript(n: int, k: int, ind: string, unit: string, st: State)
    requires AllBlank(ind) && AllBlank(unit) && unit != "" && |Itoa(n)| <= 200 && "i" in st.env && st.env["i"] == Int(k)
    ensures RunBlock([ind + "while i < " + Itoa(n) + ":", ind + unit + "i = i + 1"], 0, 2, st)
         == st.(env := st.env["i" := Int(if n <= k then k else if n - k <= 100000 then n else k + 100000)])
  {
    hide RunBlock, P.Lines, P.ExecStmt, P.FormedBlock, Counting, Itoa;
    var s := P.While(Below("i", n), Counting("i"));
    var b := P.Seq(s, P.Nil);
    ScriptFormed(n);
    ScriptLines(n, ind, unit);
    ProgramRuns(b, ind, unit, st);
    assert P.Exec(b, st) == P.Exec(P.Nil, P.ExecStmt(s, st));
    ScriptRuns(n, k, st);
  }

  lemma ScriptRuns(n: int, k: int, st: State)
    requires "i" in st.env && st.env["i"] == Int(k)
    ensures P.ExecStmt(P.While(Below("i", n), Counting("i")), st) == st.(env := st.env["i" := Int(Ended(k, n, 100000))])
  {
    hide P.ExecWhile, Counting, Below;
    CountsTo("i", n, MAX_ROUNDS, k, st);
  }

  /** A loop around one simple statement: its two lines, and when it is formed. */
  lemma LoopLines(s: P.Stmt, t: P.Stmt, ind: string, unit: string)
    requires (s.While? || s.For?) && s.body == P.Seq(t, P.Nil) && (t.Assign? || t.Print?)
    ensures P.Lines(P.Seq(s, P.Nil), ind, unit) == [ind + P.Head(s), ind + unit + P.Head(t)]
  {
    hide P.Head;
    assert P.Lines(P.Nil, ind, unit) == P.Lines(P.Nil, ind + unit, unit) == [];
    assert P.StmtLines(t, ind + unit, unit) == [ind + unit + P.Head(t)];
    assert P.Lines(s.body, ind + unit, unit) == P.StmtLines(t, ind + unit, unit) + P.Lines(P.Nil, ind + unit, unit);
    assert P.StmtLines(s, ind, unit) == [ind + P.Head(s)] + P.Lines(s.body, ind + unit, unit);
  }

  lemma LoopFormed(s: P.Stmt, t: P.Stmt)
    requires (s.While? || s.For?) && s.body == P.Seq(t, P.Nil) && P.FormedStmt(t)
    requires s.While? ==> P.FormedCond(s.cond)
    requires s.For? ==> P.IsVar(s.name) && P.FormedRange(s.range)
    ensures P.FormedBlock(P.Seq(s, P.Nil))
  {
    hide P.FormedCond, P.IsVar, P.FormedRange;
    assert P.FormedBlock(P.Nil);
    assert P.FormedBlock(s.body) by { hide P.FormedStmt; }
  }

  lemma ScriptFormed(n: int)
    requires |Itoa(n)| <= 200
    ensures P.FormedBlock(P.Seq(P.While(Below("i", n), Counting("i")), P.Nil))
  {
    hide Itoa, P.FormedBlock;
    assert AllBlank(" ") by { BlankSpace(); }
    var e := Below("i", n);
    assert Formed(e);
    NumberText(n);
    BelowText(n);
    assert P.FormedStmt(Counting("i").head);
    LoopFormed(P.While(e, Counting("i")), Counting("i").head);
  }

  lemma BelowText(n: int)
    ensures Print(Below("i", n)) == "i < " + Itoa(n)
  {
    hide Itoa;
    assert Print(Below("i", n)) == "i" + " " + "<" + " " + Itoa(n);
  }

  lemma ScriptLines(n: int, ind: string, unit: string)
    ensures P.Lines(P.Seq(P.While(Below("i", n), Counting("i")), P.Nil), ind, unit)
         == [ind + "while i < " + Itoa(n) + ":", ind + unit + "i = i + 1"]
  {
    hide Itoa, P.Lines;
    var s, t := P.While(Below("i", n), Counting("i")), Counting("i").head;
    LoopLines(s, t, ind, unit);
    BelowText(n);
    assert ind + P.Head(s) == ind + "while i < " + Itoa(n) + ":";
    StepText();
  }

  lemma StepText()
    ensures P.Head(Counting("i").head) == "i = i + 1"
  {
    hide Itoa;
    assert Itoa(1) == "1" by { One(); }
    assert Print(Counting("i").head.e) == "i" + " " + "+" + " " + "1";
  }

  // ---- a printing loop ----

  /** The numbers from a up to but not including b, one on each line. */
  function Numbers(a: int, b: int): string
    decreases b - a
  {
    if a >= b then "" else Itoa(a) + "\n" + Numbers(a + 1, b)
  }

  function Showing(x: string): P.Block {
    P.Seq(P.Print(P.One(Var(x))), P.Nil)
  }

  lemma ShowsOnce(x: string, a: int, st: State)
    requires x in st.env && st.env[x] == Int(a)
    ensures P.Exec(Showing(x), st) == st.(out := st.out + Itoa(a) + "\n")
  {
    hide Itoa;
    var b := Showing(x);
    assert P.Exec(b, st) == P.Exec(b.tail, P.ExecStmt(b.head, st));
  }

  lemma {:induction false} ShowsEach(x: string, a: int, b: int, st: State)
    requires x in st.env || |st.env| < 32
    ensures P.ExecFor(x, a, b, Showing(x), st).out == st.out + Numbers(a, b)
    decreases b - a
  {
    hide P.Exec, Showing, Itoa;
    if a < b {
      var st1 := st.(env := SetVar(st.env, x, Int(a)));
      ShowsOnce(x, a, st1);
      ShowsEach(x, a + 1, b, P.Exec(Showing(x), st1));
    }
  }

  /** The script `for i in range(lo, hi):` with `print(i)` in its body shows the numbers from lo up to hi - 1. */
  lemma PrintingScript(lo: int, hi: int, ind: string, unit: string, st: State)
    requires AllBlank(ind) && AllBlank(unit) && unit != "" && |Itoa(lo)| <= 15 && |Itoa(hi)| <= 90
    requires "i" in st.env || |st.env| < 32
    ensures RunBlock([ind + "for i in range(" + Itoa(lo) + ", " + Itoa(hi) + "):", ind + unit + "print(i)"], 0, 2, st).out
         == st.out + Numbers(lo, hi)
  {
    hide RunBlock, P.Lines, P.ExecStmt, P.FormedBlock, Showing, Itoa;
    var s := P.For("i", P.FromTo(lo, hi), Showing("i"));
    var b := P.Seq(s, P.Nil);
    PrintingFormed(lo, hi);
    PrintingLines(lo, hi, ind, unit);
    ProgramRuns(b, ind, unit, st);
    assert P.Exec(b, st) == P.Exec(P.Nil, P.ExecStmt(s, st));
    PrintingRuns(lo, hi, st);
  }

  lemma PrintingRuns(lo: int, hi: int, st: State)
    requires "i" in st.env || |st.env| < 32
    ensures P.ExecStmt(P.For("i", P.FromTo(lo, hi), Showing("i")), st).out == st.out + Numbers(lo, hi)
  {
    hide P.ExecFor, Showing, Itoa;
    ShowsEach("i", lo, hi, st);
  }

  lemma PrintingFormed(lo: int, hi: int)
    requires |Itoa(lo)| <= 15 && |Itoa(hi)| <= 90
    ensures P.FormedBlock(P.Seq(P.For("i", P.FromTo(lo, hi), Showing("i")), P.Nil))
  {
    hide Itoa, P.FormedBlock;
    var t := Showing("i").head;
    assert Print(t.args.e) == "i" && P.ArgsText(t.args) == "i";
    assert Formed(t.args.e) && Depth("i", 0) == 0;
    assert P.FormedStmt(t);
    LoopFormed(P.For("i", P.FromTo(lo, hi), Showing("i")), t);
  }

  lemma PrintingLines(lo: int, hi: int, ind: string, unit: string)
    ensures P.Lines(P.Seq(P.For("i", P.FromTo(lo, hi), Showing("i")), P.Nil), ind, unit)
         == [ind + "for i in range(" + Itoa(lo) + ", " + Itoa(hi) + "):", ind + unit + "print(i)"]
  {
    hide Itoa, P.Lines;
    var s, t := P.For("i", P.FromTo(lo, hi), Showing("i")), Showing("i").head;
    LoopLines(s, t, ind, unit);
    assert ind + P.Head(s) == ind + "for i in range(" + Itoa(lo) + ", " + Itoa(hi) + "):";
    assert P.Head(t) == "print(i)";
  }

  // ---- texts of numbers ----

  lemma {:induction false} DigitsOnly(n: nat)
    ensures forall i | 0 <= i < |Digits(n)| :: '0' <= Digits(n)[i] <= '9'
  {
    if n >= 10 {
      DigitsOnly(n / 10);
    }
  }

  lemma NumberText(n: int)
    ensures ':' !in Itoa(n) && ',' !in Itoa(n)
  {
    DigitsOnly(if n < 0 then -n else n);
  }
}
