/** Running the block executor on the printed lines of a program gives the meaning of the program. */
module PyBlockProof {
  import opened CText
  import opened PyExpr
  import opened PyBlock
  import opened PyProgram
  import opened PyLayout

  // ---- where a program's lines stand ----

  function Size(b: Block): nat {
    match b
    case Nil => 0
    case Seq(s, tail) => StmtSize(s) + Size(tail)
  }

  function StmtSize(s: Stmt): nat {
    match s
    case If(_, body, chain) => 1 + Size(body) + ChainSize(chain)
    case While(_, body) => 1 + Size(body)
    case For(_, _, body) => 1 + Size(body)
    case _ => 1
  }

  function ChainSize(c: Chain): nat {
    match c
    case NoElse => 0
    case Elif(_, body, chain) => 1 + Size(body) + ChainSize(chain)
    case Else(body) => 1 + Size(body)
  }

  /** The lines from i on spell the block. */
  ghost predicate Lays(lines: seq<string>, i: nat, b: Block, ind: string, unit: string)
    decreases b
  {
    match b
    case Nil => i <= |lines|
    case Seq(s, tail) => LaysStmt(lines, i, s, ind, unit) && Lays(lines, i + StmtSize(s), tail, ind, unit)
  }

  ghost predicate LaysStmt(lines: seq<string>, i: nat, s: Stmt, ind: string, unit: string)
    decreases s
  {
    i < |lines| &&
    match s
    case Skip(line) => lines[i] == line
    case If(_, body, chain) =>
      && lines[i] == ind + Head(s)
      && Lays(lines, i + 1, body, ind + unit, unit) && LaysChain(lines, i + 1 + Size(body), chain, ind, unit)
    case While(_, body) => lines[i] == ind + Head(s) && Lays(lines, i + 1, body, ind + unit, unit)
    case For(_, _, body) => lines[i] == ind + Head(s) && Lays(lines, i + 1, body, ind + unit, unit)
    case _ => lines[i] == ind + Head(s)
  }

  ghost predicate LaysChain(lines: seq<string>, i: nat, c: Chain, ind: string, unit: string)
    decreases c
  {
    match c
    case NoElse => i <= |lines|
    case Elif(_, body, chain) =>
      && i < |lines| && lines[i] == ind + ChainHead(c)
      && Lays(lines, i + 1, body, ind + unit, unit) && LaysChain(lines, i + 1 + Size(body), chain, ind, unit)
    case Else(body) =>
      i < |lines| && lines[i] == ind + ChainHead(c) && Lays(lines, i + 1, body, ind + unit, unit)
  }

  /** A part of the script: these lines start at i. */
  ghost predicate At(lines: seq<string>, i: nat, part: seq<string>) {
    i + |part| <= |lines| && forall k | 0 <= k < |part| :: lines[i + k] == part[k]
  }

  lemma AtSplit(lines: seq<string>, i: nat, a: seq<string>, b: seq<string>)
    requires At(lines, i, a + b)
    ensures At(lines, i, a) && At(lines, i + |a|, b)
  {
    forall k | 0 <= k < |a|
      ensures lines[i + k] == a[k]
    {
      assert (a + b)[k] == a[k];
    }
    forall k | 0 <= k < |b|
      ensures lines[i + |a| + k] == b[k]
    {
      assert (a + b)[|a| + k] == b[k];
    }
  }

  lemma {:induction false} BlockLaid(lines: seq<string>, i: nat, b: Block, ind: string, unit: string)
    requires At(lines, i, Lines(b, ind, unit))
    ensures Lays(lines, i, b, ind, unit) && |Lines(b, ind, unit)| == Size(b)
    decreases b, 0
  {
    hide At;
    match b
    case Nil =>
      AtFits(lines, i, []);
    case Seq(s, tail) =>
      AtSplit(lines, i, StmtLines(s, ind, unit), Lines(tail, ind, unit));
      StmtLaid(lines, i, s, ind, unit);
      BlockLaid(lines, i + StmtSize(s), tail, ind, unit);
  }

  lemma AtFits(lines: seq<string>, i: nat, part: seq<string>)
    requires At(lines, i, part)
    ensures i + |part| <= |lines|
    ensures part != [] ==> lines[i] == part[0]
  {
    assert part != [] ==> lines[i + 0] == part[0];
  }

  lemma {:induction false} StmtLaid(lines: seq<string>, i: nat, s: Stmt, ind: string, unit: string)
    requires At(lines, i, StmtLines(s, ind, unit))
    ensures LaysStmt(lines, i, s, ind, unit) && |StmtLines(s, ind, unit)| == StmtSize(s)
    decreases s, 0
  {
    hide At, Head, Lines, ChainLines;
    match s
    case If(_, body, chain) =>
      var h, ls, cs := [ind + Head(s)], Lines(body, ind + unit, unit), ChainLines(chain, ind, unit);
      AtSplit(lines, i, h + ls, cs);
      AtSplit(lines, i, h, ls);
      AtFits(lines, i, h);
      BlockLaid(lines, i + 1, body, ind + unit, unit);
      ChainLaid(lines, i + 1 + Size(body), chain, ind, unit);
    case While(_, body) => HeadedLaid(lines, i, ind + Head(s), body, ind + unit, unit);
    case For(_, _, body) => HeadedLaid(lines, i, ind + Head(s), body, ind + unit, unit);
    case _ => AtFits(lines, i, StmtLines(s, ind, unit));
  }

  lemma {:induction false} HeadedLaid(lines: seq<string>, i: nat, head: string, body: Block, ind: string, unit: string)
    requires At(lines, i, [head] + Lines(body, ind, unit))
    ensures i < |lines| && lines[i] == head && Lays(lines, i + 1, body, ind, unit)
    ensures |Lines(body, ind, unit)| == Size(body)
    decreases body, 1
  {
    hide At;
    AtSplit(lines, i, [head], Lines(body, ind, unit));
    AtFits(lines, i, [head]);
    BlockLaid(lines, i + 1, body, ind, unit);
  }

  lemma {:induction false} ChainLaid(lines: seq<string>, i: nat, c: Chain, ind: string, unit: string)
    requires At(lines, i, ChainLines(c, ind, unit))
    ensures LaysChain(lines, i, c, ind, unit) && |ChainLines(c, ind, unit)| == ChainSize(c)
    decreases c, 0
  {
    hide At, ChainHead, Lines;
    match c
    case NoElse => AtFits(lines, i, []);
    case Elif(_, body, chain) =>
      var h, ls, cs := [ind + ChainHead(c)], Lines(body, ind + unit, unit), ChainLines(chain, ind, unit);
      AtSplit(lines, i, h + ls, cs);
      AtSplit(lines, i, h, ls);
      AtFits(lines, i, h);
      BlockLaid(lines, i + 1, body, ind + unit, unit);
      ChainLaid(lines, i + 1 + Size(body), chain, ind, unit);
    case Else(body) => HeadedLaid(lines, i, ind + ChainHead(c), body, ind + unit, unit);
  }

  // ---- ranges of lines ----

  ghost predicate AllIdle(lines: seq<string>, i: nat, j: nat) {
    i <= j <= |lines| && forall k | i <= k < j :: Idle(lines[k])
  }

  ghost predicate Deep(lines: seq<string>, i: nat, j: nat, base: nat) {
    i <= j <= |lines| && forall k | i <= k < j :: Idle(lines[k]) || Indent(lines[k]) > base
  }

  lemma {:induction false} DeepSkipped(lines: seq<string>, i: nat, j: nat, base: nat)
    requires Deep(lines, i, j, base)
    ensures BlockEnd(lines, i, base) == BlockEnd(lines, j, base)
    decreases j - i
  {
    if i < j {
      assert Idle(lines[i]) || Indent(lines[i]) > base;
      DeepSkipped(lines, i + 1, j, base);
    }
  }

  lemma {:induction false} IdleSkipped(lines: seq<string>, i: nat, j: nat, end: nat, st: State)
    requires AllIdle(lines, i, j) && end <= |lines|
    ensures RunBlock(lines, i, end, st) == RunBlock(lines, j, end, st)
    decreases j - i
  {
    if i < j {
      IdleSkipped(lines, i + 1, j, end, st);
    }
  }

  lemma {:induction false} BlockIsDeep(lines: seq<string>, i: nat, b: Block, ind: string, unit: string, base: nat)
    requires Lays(lines, i, b, ind, unit) && FormedBlock(b) && AllBlank(ind) && AllBlank(unit) && base < |ind|
    ensures Deep(lines, i, i + Size(b), base)
    decreases b
  {
    hide FormedCond, Head, AllBlank, Deep;
    match b
    case Nil => DeepNone(lines, i, base);
    case Seq(s, tail) =>
      StmtIsDeep(lines, i, s, ind, unit, base);
      BlockIsDeep(lines, i + StmtSize(s), tail, ind, unit, base);
      DeepJoin(lines, i, i + StmtSize(s), i + Size(b), base);
  }

  lemma BlankJoin(a: string, b: string)
    requires AllBlank(a) && AllBlank(b)
    ensures AllBlank(a + b)
  {
  }

  lemma DeepJoin(lines: seq<string>, i: nat, j: nat, k: nat, base: nat)
    requires Deep(lines, i, j, base) && Deep(lines, j, k, base)
    ensures Deep(lines, i, k, base)
  {
    hide Idle, Indent;
  }

  lemma DeepLine(lines: seq<string>, i: nat, base: nat)
    requires i < |lines| && (Idle(lines[i]) || Indent(lines[i]) > base)
    ensures Deep(lines, i, i + 1, base)
  {
    hide Idle, Indent;
  }

  lemma DeepNone(lines: seq<string>, i: nat, base: nat)
    requires i <= |lines|
    ensures Deep(lines, i, i, base)
  {
  }

  lemma {:induction false} StmtIsDeep(lines: seq<string>, i: nat, s: Stmt, ind: string, unit: string, base: nat)
    requires LaysStmt(lines, i, s, ind, unit) && FormedStmt(s) && AllBlank(ind) && AllBlank(unit) && base < |ind|
    ensures Deep(lines, i, i + StmtSize(s), base)
    decreases s
  {
    hide FormedCond, Head, AllBlank, Idle, FormedArgs, Deep, Lays, LaysChain, FormedBlock, FormedChain, Size, ChainSize;
    BlankJoin(ind, unit);
    if !s.Skip? {
      HeadShows(s, ind);
    }
    DeepLine(lines, i, base);
    match s
    case If(_, body, chain) =>
      BlockIsDeep(lines, i + 1, body, ind + unit, unit, base);
      DeepJoin(lines, i, i + 1, i + 1 + Size(body), base);
      ChainIsDeep(lines, i + 1 + Size(body), chain, ind, unit, base);
      DeepJoin(lines, i, i + 1 + Size(body), i + StmtSize(s), base);
    case While(_, body) =>
      BlockIsDeep(lines, i + 1, body, ind + unit, unit, base);
      DeepJoin(lines, i, i + 1, i + StmtSize(s), base);
    case For(_, _, body) =>
      BlockIsDeep(lines, i + 1, body, ind + unit, unit, base);
      DeepJoin(lines, i, i + 1, i + StmtSize(s), base);
    case _ =>
  }

  lemma {:induction false} ChainIsDeep(lines: seq<string>, i: nat, c: Chain, ind: string, unit: string, base: nat)
    requires LaysChain(lines, i, c, ind, unit) && FormedChain(c) && AllBlank(ind) && AllBlank(unit) && base < |ind|
    ensures Deep(lines, i, i + ChainSize(c), base)
    decreases c
  {
    hide FormedCond, ChainHead, AllBlank, Idle, Deep, Lays, FormedBlock, Size;
    BlankJoin(ind, unit);
    if !c.NoElse? {
      ChainHeadShows(c, ind);
      DeepLine(lines, i, base);
    }
    match c
    case NoElse => DeepNone(lines, i, base);
    case Elif(_, body, chain) =>
      BlockIsDeep(lines, i + 1, body, ind + unit, unit, base);
      DeepJoin(lines, i, i + 1, i + 1 + Size(body), base);
      ChainIsDeep(lines, i + 1 + Size(body), chain, ind, unit, base);
      DeepJoin(lines, i, i + 1 + Size(body), i + ChainSize(c), base);
    case Else(body) =>
      BlockIsDeep(lines, i + 1, body, ind + unit, unit, base);
      DeepJoin(lines, i, i + 1, i + ChainSize(c), base);
  }

  // ---- what may follow a statement ----

  /** q is the first working line at or after j, if any; it is no deeper than n and no arm at n. */
  ghost predicate Follows(lines: seq<string>, j: nat, q: nat, n: nat) {
    && AllIdle(lines, j, q)
    && (q < |lines| ==> !Idle(lines[q]) && Indent(lines[q]) <= n && !ContinuesChain(lines[q], n))
  }

  /** end closes a block indented by more than n. */
  ghost predicate Closes(lines: seq<string>, end: nat, n: nat) {
    end <= |lines| && (end < |lines| ==> !Idle(lines[end]) && Indent(lines[end]) < n)
  }

  lemma {:induction false} TailFollows(lines: seq<string>, j: nat, b: Block, end: nat, ind: string, unit: string)
    returns (q: nat)
    requires Lays(lines, j, b, ind, unit) && FormedBlock(b) && AllBlank(ind)
    requires j + Size(b) <= end && AllIdle(lines, j + Size(b), end) && Closes(lines, end, |ind|)
    ensures Follows(lines, j, q, |ind|) && q <= end
    decreases b
  {
    hide FormedCond, Head, AllBlank, Idle, FormedArgs;
    match b
    case Nil => q := end;
    case Seq(s, tail) =>
      if s.Skip? {
        q := TailFollows(lines, j + 1, tail, end, ind, unit);
      } else {
        q := j;
        SizeAtLeast(s);
        HeadShows(s, ind);
        HeadStartsNoArm(s);
        ContinuesShown(lines[j], |ind|, Head(s));
      }
  }

  lemma SizeAtLeast(s: Stmt)
    ensures StmtSize(s) >= 1
  {
  }

  // ---- the main induction, by the number of lines ----

  lemma {:induction false} BlockRuns(lines: seq<string>, i: nat, end: nat, b: Block, ind: string, unit: string, st: State)
    requires Lays(lines, i, b, ind, unit) && FormedBlock(b) && AllBlank(ind) && AllBlank(unit) && unit != ""
    requires i + Size(b) <= end && AllIdle(lines, i + Size(b), end) && Closes(lines, end, |ind|)
    ensures RunBlock(lines, i, end, st) == Exec(b, st)
    decreases Size(b), 6, 0
  {
    hide AllBlank, FormedStmt, LaysStmt, ExecStmt, StmtSize;
    match b
    case Nil =>
      IdleSkipped(lines, i, end, end, st);
    case Seq(s, tail) =>
      SizeAtLeast(s);
      var j := i + StmtSize(s);
      var q := TailFollows(lines, j, tail, end, ind, unit);
      StmtRuns(lines, i, q, end, s, ind, unit, st);
      IdleSkipped(lines, j, q, end, ExecStmt(s, st));
      BlockRuns(lines, j, end, tail, ind, unit, ExecStmt(s, st));
  }

  lemma BodyEnds(lines: seq<string>, i: nat, q: nat, b: Block, ind: string, unit: string)
    requires Lays(lines, i, b, ind + unit, unit) && FormedBlock(b) && AllBlank(ind) && AllBlank(unit) && unit != ""
    requires i + Size(b) <= q && AllIdle(lines, i + Size(b), q)
    requires q < |lines| ==> !Idle(lines[q]) && Indent(lines[q]) <= |ind|
    ensures BlockEnd(lines, i, |ind|) == q
  {
    hide AllBlank, Idle, Lays, FormedBlock, Size;
    BlankJoin(ind, unit);
    BlockIsDeep(lines, i, b, ind + unit, unit, |ind|);
    DeepSkipped(lines, i, i + Size(b), |ind|);
    DeepSkipped(lines, i + Size(b), q, |ind|);
  }

  /** A body under a header indented by ind runs as a block of its own. */
  lemma {:induction false} BodyRuns(lines: seq<string>, i: nat, q: nat, b: Block, ind: string, unit: string, st: State)
    requires Lays(lines, i, b, ind + unit, unit) && FormedBlock(b) && AllBlank(ind) && AllBlank(unit) && unit != ""
    requires i + Size(b) <= q && AllIdle(lines, i + Size(b), q)
    requires q < |lines| ==> !Idle(lines[q]) && Indent(lines[q]) <= |ind|
    ensures RunBlock(lines, i, q, st) == Exec(b, st)
    decreases Size(b), 7, 0
  {
    hide AllBlank, Idle, Lays, FormedBlock, RunBlock, Exec, Size;
    BlankJoin(ind, unit);
    BlockRuns(lines, i, q, b, ind + unit, unit, st);
  }

  lemma {:induction false} StmtRuns(lines: seq<string>, i: nat, q: nat, end: nat, s: Stmt, ind: string, unit: string, st: State)
    requires LaysStmt(lines, i, s, ind, unit) && FormedStmt(s) && AllBlank(ind) && AllBlank(unit) && unit != ""
    requires i + StmtSize(s) <= q <= end && Follows(lines, i + StmtSize(s), q, |ind|) && end <= |lines|
    ensures RunBlock(lines, i, end, st) == RunBlock(lines, q, end, ExecStmt(s, st))
    decreases StmtSize(s), 5, 0
  {
    hide AllBlank, Idle, RunBlock, Head, FormedCond, FormedArgs, Assignable, Bindable, Follows, Take, Formed;
    var j := i + StmtSize(s);
    match s
    case Skip(line) =>
      SkipLine(lines, i, end, st);
      FollowsIdle(lines, j, q, |ind|, end, st);
    case Assign(name, e) =>
      HeadShows(s, ind);
      NameWhole(name);
      AssignLine(lines, i, end, name, e, |ind|, st);
      FollowsIdle(lines, j, q, |ind|, end, ExecStmt(s, st));
    case Print(args) =>
      HeadShows(s, ind);
      PrintLine(lines, i, end, s, |ind|, st);
      FollowsIdle(lines, j, q, |ind|, end, ExecStmt(s, st));
    case If(cond, body, chain) =>
      IfHead(s);
      ArmRuns(lines, i, q, end, "if ", cond, body, chain, ind, unit, st);
    case While(cond, body) => WhileRuns(lines, i, q, end, s, ind, unit, st);
    case For(name, r, body) => ForRuns(lines, i, q, end, s, ind, unit, st);
  }

  lemma NameWhole(name: string)
    requires Assignable(name)
    ensures Bindable(name) && Take(name, VAR_MAX) == name
  {
  }

  lemma IfHead(s: Stmt)
    requires s.If?
    ensures Head(s) == "if " + PyExpr.Print(s.cond) + ":"
  {
  }

  lemma FollowsIdle(lines: seq<string>, j: nat, q: nat, n: nat, end: nat, st: State)
    requires Follows(lines, j, q, n) && end <= |lines|
    ensures RunBlock(lines, j, end, st) == RunBlock(lines, q, end, st)
  {
    IdleSkipped(lines, j, q, end, st);
  }

  lemma SkipLine(lines: seq<string>, i: nat, end: nat, st: State)
    requires i < end <= |lines| && Idle(lines[i])
    ensures RunBlock(lines, i, end, st) == RunBlock(lines, i + 1, end, st)
  {
  }

  /** A working line that is no header is executed on its own. */
  lemma PlainLine(lines: seq<string>, i: nat, end: nat, p: string, n: nat, st: State)
    requires i < end <= |lines| && Shows(lines[i], n, p)
    requires !IsArm(p) && !("else" <= p) && !("while " <= p) && !("for " <= p)
    ensures RunBlock(lines, i, end, st) == RunBlock(lines, i + 1, end, RunLine(lines[i], st))
  {
    hide RunLine, Indent, SkipWs, Idle, RunWhile, RunFor, RunArm, Eval;
  }

  lemma AssignLine(lines: seq<string>, i: nat, end: nat, name: string, e: Expr, n: nat, st: State)
    requires i < end <= |lines| && Bindable(name) && Formed(e) && Shows(lines[i], n, Head(Assign(name, e)))
    ensures RunBlock(lines, i, end, st)
         == RunBlock(lines, i + 1, end, st.(env := SetVar(st.env, Take(name, VAR_MAX), Meaning(e, st.env))))
  {
    hide RunBlock, RunLine, Shows, Eval, Formed, PyExpr.Print, SetVar, Meaning, Take;
    AssignRead(name, e, lines[i], n, st);
    AssignText(name, e);
    AssignIsPlain(name, " = " + PyExpr.Print(e));
    PlainLine(lines, i, end, Head(Assign(name, e)), n, st);
  }

  /** Outside an if-chain a line that begins with "else" is passed over. */
  lemma ElseLine(lines: seq<string>, i: nat, end: nat, p: string, n: nat, st: State)
    requires i < end <= |lines| && Shows(lines[i], n, p) && !IsArm(p) && "else" <= p
    ensures RunBlock(lines, i, end, st) == RunBlock(lines, i + 1, end, st)
  {
    hide RunLine, Indent, SkipWs, Idle, RunWhile, RunFor, RunArm, Eval;
  }

  /** What any assignment does, wherever it stands: a line whose name begins with "else" is taken for an `else` line
      and passed over, and any other binds at most the first 31 characters of its name. */
  lemma AssignmentEffect(lines: seq<string>, i: nat, end: nat, name: string, e: Expr, n: nat, st: State)
    requires IsIdent(name) && name !in {"if", "elif", "while", "for"} && Formed(e)
    requires i < end <= |lines| && Shows(lines[i], n, Head(Assign(name, e)))
    ensures RunBlock(lines, i, end, st)
         == RunBlock(lines, i + 1, end, if "else" <= name then st
                                        else st.(env := SetVar(st.env, Take(name, VAR_MAX), Meaning(e, st.env))))
  {
    hide RunBlock, Formed, PyExpr.Print, Head, Shows, Meaning, SetVar, Take;
    var p := Head(Assign(name, e));
    AssignText(name, e);
    if "else" <= name {
      assert p[0] == name[0] == 'e' && p[2] == name[2] == 's' && "else" <= p;
      ElseLine(lines, i, end, p, n, st);
    } else {
      AssignLine(lines, i, end, name, e, n, st);
    }
  }

  /** That is the meaning of the assignment, for a new variable with room for it, exactly when the name does not begin
      with "else" and has at most 31 characters. */
  lemma AssignmentIff(name: string, e: Expr, st: State)
    requires |st.env| < MAX_VARS && name !in st.env
    ensures (if "else" <= name then st else st.(env := SetVar(st.env, Take(name, VAR_MAX), Meaning(e, st.env))))
         == ExecStmt(Assign(name, e), st)
       <==> !("else" <= name) && |name| <= VAR_MAX
  {
    hide Meaning;
    var v := Meaning(e, st.env);
    assert name in SetVar(st.env, name, v);
    if |name| > VAR_MAX {
      assert name !in SetVar(st.env, Take(name, VAR_MAX), v);
    }
  }

  lemma AssignText(name: string, e: Expr)
    ensures Head(Assign(name, e)) == name + (" = " + PyExpr.Print(e))
  {
    hide PyExpr.Print;
  }

  lemma PrintLine(lines: seq<string>, i: nat, end: nat, s: Stmt, n: nat, st: State)
    requires i < end <= |lines| && s.Print? && FormedStmt(s) && Shows(lines[i], n, Head(s))
    ensures RunBlock(lines, i, end, st) == RunBlock(lines, i + 1, end, ExecStmt(s, st))
  {
    hide RunBlock, RunLine, Shows, Eval, FormedArgs, ArgsText, Shown;
    PrintRead(s.args, lines[i], n, st);
    assert Head(s)[0] == 'p';
    PlainLine(lines, i, end, Head(s), n, st);
  }

  // ---- if-chains ----

  /** One arm: header line, body, rest of the chain. */
  ghost predicate LaysArm(lines: seq<string>, i: nat, head: string, body: Block, chain: Chain, ind: string, unit: string) {
    && i < |lines| && lines[i] == ind + head
    && Lays(lines, i + 1, body, ind + unit, unit) && LaysChain(lines, i + 1 + Size(body), chain, ind, unit)
  }

  /** Where the body of an arm ends: at the next arm, or at what follows the chain. */
  ghost predicate ArmEnds(lines: seq<string>, k: nat, be: nat, q: nat, chain: Chain, n: nat) {
    && AllIdle(lines, k, be) && k <= be <= q
    && (be < |lines| ==> !Idle(lines[be]) && Indent(lines[be]) <= n)
    && be == if chain.NoElse? then q else k
  }

  lemma ArmEnd(lines: seq<string>, k: nat, q: nat, chain: Chain, ind: string, unit: string) returns (be: nat)
    requires LaysChain(lines, k, chain, ind, unit) && AllBlank(ind)
    requires k + ChainSize(chain) <= q && Follows(lines, k + ChainSize(chain), q, |ind|)
    ensures ArmEnds(lines, k, be, q, chain, |ind|)
  {
    hide Idle, ChainHead, AllBlank;
    be := if chain.NoElse? then q else k;
    if !chain.NoElse? {
      ChainHeadShows(chain, ind);
    }
  }

  lemma {:induction false} ArmRuns(lines: seq<string>, i: nat, q: nat, end: nat, word: string,
    cond: Expr, body: Block, chain: Chain, ind: string, unit: string, st: State)
    requires (word == "if " || word == "elif ")
    requires LaysArm(lines, i, word + PyExpr.Print(cond) + ":", body, chain, ind, unit)
    requires FormedCond(cond) && FormedBlock(body) && FormedChain(chain)
    requires AllBlank(ind) && AllBlank(unit) && unit != "" && end <= |lines|
    requires i + 1 + Size(body) + ChainSize(chain) <= q <= end
    requires Follows(lines, i + 1 + Size(body) + ChainSize(chain), q, |ind|)
    ensures RunBlock(lines, i, end, st)
         == RunBlock(lines, q, end, if Holds(cond, st) then Exec(body, st) else ExecChain(chain, st))
    decreases 1 + Size(body) + ChainSize(chain), 4, 0
  {
    hide AllBlank, Idle, RunBlock, RunOtherwise, FormedCond, FormedBlock, FormedChain, Follows, Holds;
    hide Lays, LaysChain, ContinuesChain, BlockEnd, SkipArms, Exec, ExecChain, PyExpr.Print, Size, ChainSize;
    var k := i + 1 + Size(body);
    var be := ArmEnd(lines, k, q, chain, ind, unit);
    BodyEnds(lines, i + 1, be, body, ind, unit);
    ArmStep(lines, i, end, word, cond, ind, be, st);
    if Holds(cond, st) {
      BodyRuns(lines, i + 1, be, body, ind, unit, st);
      ChainSkipped(lines, k, be, q, end, chain, ind, unit);
    } else {
      ChainRuns(lines, k, be, q, end, chain, ind, unit, st);
    }
  }

  lemma ArmStep(lines: seq<string>, i: nat, end: nat, word: string, cond: Expr, ind: string, be: nat, st: State)
    requires (word == "if " || word == "elif ") && FormedCond(cond) && AllBlank(ind)
    requires i < end <= |lines| && lines[i] == ind + (word + PyExpr.Print(cond) + ":")
    requires BlockEnd(lines, i + 1, |ind|) == be
    ensures RunBlock(lines, i, end, st) ==
      if Holds(cond, st) then RunBlock(lines, SkipArms(lines, be, end, |ind|), end, RunBlock(lines, i + 1, be, st))
      else RunOtherwise(lines, be, end, |ind|, st)
  {
    hide AllBlank, FormedCond, BlockEnd, SkipArms, RunOtherwise, PyExpr.Print, Eval, Meaning, SkipWs, Idle, Indent, RunBlock;
    var p := word + PyExpr.Print(cond) + ":";
    ArmHeadRead(word, cond, st.env);
    assert Shows(lines[i], |ind|, p) by {
      assert p[0] == word[0];
      HeadLine(ind, p) by { NotBlankE(); }
    }
    ArmIsRun(lines, i, end, p, |ind|, st);
  }

  lemma ArmIsRun(lines: seq<string>, i: nat, end: nat, p: string, n: nat, st: State)
    requires i < end <= |lines| && Shows(lines[i], n, p) && IsArm(p)
    ensures RunBlock(lines, i, end, st) == RunArm(lines, i, end, st)
  {
    hide Indent, SkipWs, Idle, RunWhile, RunFor, RunArm, RunLine, Eval, IsArm;
  }

  /** After the arm that ran, every later arm is passed over. */
  lemma {:induction false} ChainSkipped(lines: seq<string>, k: nat, be: nat, q: nat, end: nat, chain: Chain,
                                        ind: string, unit: string)
    requires LaysChain(lines, k, chain, ind, unit) && FormedChain(chain)
    requires AllBlank(ind) && AllBlank(unit) && unit != "" && end <= |lines|
    requires k + ChainSize(chain) <= q <= end && Follows(lines, k + ChainSize(chain), q, |ind|)
    requires ArmEnds(lines, k, be, q, chain, |ind|)
    ensures SkipArms(lines, be, end, |ind|) == q
    decreases chain
  {
    hide AllBlank, Idle, FormedCond, FormedBlock, ContinuesChain, Lays, BlockEnd, ChainHead;
    match chain
    case NoElse => NoArmFollows(lines, k, q, |ind|);
    case Elif(_, body, rest) =>
      ChainHeadShows(chain, ind);
      var be' := ArmEnd(lines, k + 1 + Size(body), q, rest, ind, unit);
      BodyEnds(lines, k + 1, be', body, ind, unit);
      ChainSkipped(lines, k + 1 + Size(body), be', q, end, rest, ind, unit);
    case Else(body) =>
      ChainHeadShows(chain, ind);
      BodyEnds(lines, k + 1, q, body, ind, unit);
      NoArmFollows(lines, k + ChainSize(chain), q, |ind|);
  }

  lemma NoArmFollows(lines: seq<string>, j: nat, q: nat, n: nat)
    requires Follows(lines, j, q, n)
    ensures q < |lines| ==> !ContinuesChain(lines[q], n)
  {
    hide Idle, ContinuesChain;
  }

  /** After an arm whose condition failed, the rest of the chain runs. */
  lemma {:induction false} ChainRuns(lines: seq<string>, k: nat, be: nat, q: nat, end: nat, chain: Chain,
                                     ind: string, unit: string, st: State)
    requires LaysChain(lines, k, chain, ind, unit) && FormedChain(chain)
    requires AllBlank(ind) && AllBlank(unit) && unit != "" && end <= |lines|
    requires k + ChainSize(chain) <= q <= end && Follows(lines, k + ChainSize(chain), q, |ind|)
    requires ArmEnds(lines, k, be, q, chain, |ind|)
    ensures RunOtherwise(lines, be, end, |ind|, st) == RunBlock(lines, q, end, ExecChain(chain, st))
    decreases ChainSize(chain), 5, 0
  {
    hide AllBlank, Idle, FormedCond, FormedBlock, ContinuesChain, Lays, BlockEnd, ChainHead, RunBlock, Exec, Size, SkipWs, Holds;
    match chain
    case NoElse => NoArmFollows(lines, k, q, |ind|);
    case Elif(cond, body, rest) =>
      ChainHeadShows(chain, ind);
      ElifHead(chain);
      assert LaysArm(lines, k, "elif " + PyExpr.Print(cond) + ":", body, rest, ind, unit);
      ArmRuns(lines, k, q, end, "elif ", cond, body, rest, ind, unit, st);
    case Else(body) =>
      ChainHeadShows(chain, ind);
      BodyEnds(lines, k + 1, q, body, ind, unit);
      BodyRuns(lines, k + 1, q, body, ind, unit, st);
  }

  lemma ElifHead(c: Chain)
    requires c.Elif?
    ensures ChainHead(c) == "elif " + PyExpr.Print(c.cond) + ":"
  {
  }

  // ---- loops ----

  lemma {:induction false} WhileRuns(lines: seq<string>, i: nat, q: nat, end: nat, s: Stmt, ind: string, unit: string, st: State)
    requires s.While? && LaysStmt(lines, i, s, ind, unit) && FormedStmt(s)
    requires AllBlank(ind) && AllBlank(unit) && unit != "" && end <= |lines|
    requires i + StmtSize(s) <= q <= end && Follows(lines, i + StmtSize(s), q, |ind|)
    ensures RunBlock(lines, i, end, st) == RunBlock(lines, q, end, ExecStmt(s, st))
    decreases StmtSize(s), 4, 0
  {
    hide AllBlank, Idle, RunBlock, RunWhile, ExecWhile, FormedCond, FormedBlock, Head, Lays, Eval, Before, ContinuesChain, BlockEnd;
    var p := Head(s);
    HeadShows(s, ind);
    WhileHead(s);
    WhileHeadRead(s.cond, st.env);
    BodyEnds(lines, i + 1, q, s.body, ind, unit);
    WhileIsRun(lines, i, end, p, |ind|, q, st);
    var cond := Before(p[6..], ':', ARG_MAX);
    assert CondReads(cond, s.cond) by {
      forall env ensures Eval(cond, env).0 == Meaning(s.cond, env) {
        WhileHeadRead(s.cond, env);
      }
    }
    LoopRuns(lines, i + 1, q, cond, s.cond, s.body, 0, ind, unit, st);
  }

  lemma WhileHead(s: Stmt)
    requires s.While?
    ensures Head(s) == "while " + PyExpr.Print(s.cond) + ":"
  {
  }

  lemma WhileIsRun(lines: seq<string>, i: nat, end: nat, p: string, n: nat, be: nat, st: State)
    requires i < end <= |lines| && Shows(lines[i], n, p) && !IsArm(p) && !("else" <= p) && "while " <= p
    requires BlockEnd(lines, i + 1, n) == be
    ensures RunBlock(lines, i, end, st)
         == RunBlock(lines, be, end, RunWhile(lines, Before(p[6..], ':', ARG_MAX), i + 1, be, 0, st))
  {
    hide Indent, SkipWs, Idle, RunWhile, RunFor, RunArm, RunLine, Eval, IsArm, BlockEnd, Before;
  }

  /** The text of a condition evaluates to its meaning in every environment. */
  ghost predicate CondReads(text: string, cond: Expr) {
    forall env: Env :: Eval(text, env).0 == Meaning(cond, env)
  }

  lemma {:induction false} LoopRuns(lines: seq<string>, bs: nat, q: nat, text: string, cond: Expr, body: Block,
    rounds: nat, ind: string, unit: string, st: State)
    requires CondReads(text, cond) && rounds <= MAX_ROUNDS
    requires Lays(lines, bs, body, ind + unit, unit) && FormedBlock(body) && AllBlank(ind) && AllBlank(unit) && unit != ""
    requires bs + Size(body) <= q && AllIdle(lines, bs + Size(body), q)
    requires q < |lines| ==> !Idle(lines[q]) && Indent(lines[q]) <= |ind|
    ensures RunWhile(lines, text, bs, q, rounds, st) == ExecWhile(cond, body, MAX_ROUNDS - rounds, st)
    decreases Size(body) + 1, 3, MAX_ROUNDS - rounds
  {
    hide AllBlank, Idle, RunBlock, FormedBlock, Lays, Eval, Meaning, Exec, Size;
    assert Eval(text, st.env).0 == Meaning(cond, st.env);
    if Holds(cond, st) && rounds < MAX_ROUNDS {
      BodyRuns(lines, bs, q, body, ind, unit, st);
      LoopRuns(lines, bs, q, text, cond, body, rounds + 1, ind, unit, Exec(body, st));
    }
  }

  lemma {:induction false} ForRuns(lines: seq<string>, i: nat, q: nat, end: nat, s: Stmt, ind: string, unit: string, st: State)
    requires s.For? && LaysStmt(lines, i, s, ind, unit) && FormedStmt(s)
    requires AllBlank(ind) && AllBlank(unit) && unit != "" && end <= |lines|
    requires i + StmtSize(s) <= q <= end && Follows(lines, i + StmtSize(s), q, |ind|)
    ensures RunBlock(lines, i, end, st) == RunBlock(lines, q, end, ExecStmt(s, st))
    decreases StmtSize(s), 4, 0
  {
    hide AllBlank, Idle, RunBlock, RunFor, ExecFor, FormedRange, FormedBlock, Head, Lays, Eval, ContinuesChain, BlockEnd;
    hide ForVar, ForIter, Bounds;
    var p := Head(s);
    HeadShows(s, ind);
    ForHead(s);
    ForHeadRead(s.name, s.range, st.env);
    BodyEnds(lines, i + 1, q, s.body, ind, unit);
    ForIsRun(lines, i, end, p, |ind|, q, st);
    RangeRuns(lines, i + 1, q, s.name, if s.range.FromTo? then s.range.lo else 0, s.range.hi, s.body, ind, unit, st);
  }

  lemma ForHead(s: Stmt)
    requires s.For?
    ensures Head(s) == "for " + s.name + " in range(" + RangeArgs(s.range) + "):"
  {
  }

  lemma ForIsRun(lines: seq<string>, i: nat, end: nat, p: string, n: nat, be: nat, st: State)
    requires i < end <= |lines| && Shows(lines[i], n, p)
    requires !IsArm(p) && !("else" <= p) && !("while " <= p) && "for " <= p
    requires BlockEnd(lines, i + 1, n) == be
    ensures var (a, b) := Bounds(Eval(ForIter(p), st.env).0);
      RunBlock(lines, i, end, st) == RunBlock(lines, be, end, RunFor(lines, ForVar(p), a, b, i + 1, be, st))
  {
    hide Indent, SkipWs, Idle, RunWhile, RunFor, RunArm, RunLine, Eval, IsArm, BlockEnd, ForVar, ForIter, Bounds;
  }

  lemma {:induction false} RangeRuns(lines: seq<string>, bs: nat, q: nat, name: string, a: int, b: int, body: Block,
    ind: string, unit: string, st: State)
    requires Lays(lines, bs, body, ind + unit, unit) && FormedBlock(body) && AllBlank(ind) && AllBlank(unit) && unit != ""
    requires bs + Size(body) <= q && AllIdle(lines, bs + Size(body), q)
    requires q < |lines| ==> !Idle(lines[q]) && Indent(lines[q]) <= |ind|
    ensures RunFor(lines, name, a, b, bs, q, st) == ExecFor(name, a, b, body, st)
    decreases Size(body) + 1, 3, b - a
  {
    hide AllBlank, Idle, RunBlock, FormedBlock, Lays, Exec, Size, SetVar;
    if a < b {
      var st1 := st.(env := SetVar(st.env, name, Int(a)));
      BodyRuns(lines, bs, q, body, ind, unit, st1);
      RangeRuns(lines, bs, q, name, a + 1, b, body, ind, unit, Exec(body, st1));
    }
  }

  // ---- the main result ----

  /** Running the printed lines of a program is the meaning of the program, from any state. */
  lemma ProgramRuns(b: Block, ind: string, unit: string, st: State)
    requires FormedBlock(b) && AllBlank(ind) && AllBlank(unit) && unit != ""
    ensures var lines := Lines(b, ind, unit); RunBlock(lines, 0, |lines|, st) == Exec(b, st)
  {
    hide RunBlock, Exec, FormedBlock, Lines, Lays, AllBlank;
    var lines := Lines(b, ind, unit);
    BlockLaid(lines, 0, b, ind, unit);
    BlockRuns(lines, 0, |lines|, b, ind, unit, st);
  }
}
