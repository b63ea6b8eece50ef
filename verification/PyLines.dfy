/** What the interpreter makes of texts that no printed expression or statement begins: nothing read, groups in
    parentheses, and comparisons that stand alone on a line. */
module PyLines {
  import opened CText
  import opened TextFacts
  import opened PyExpr
  import opened PyBlock
  import opened PyRoundTrip
  import opened PyLayout
  import P = PyProgram

  const NOTHING := PyVal(NoneVal, 0, "")

  /** No value and no operator begins with this character. */
  predicate Begins(c: char) {
    '0' <= c <= '9' || 'a' <= c <= 'z' || 'A' <= c <= 'Z' || c == '_' || c == '"' || c == '\'' || c == '-'
    || c == '*' || c == '/' || c == '%' || c == '+' || c == '<' || c == '>' || c == '!' || c == ' ' || c == '\t'
  }

  predicate Unreadable(t: string) {
    t == "" || (!Begins(t[0]) && !("==" <= t))
  }

  /** Where nothing can be read the value is None and the text stays where it is. */
  lemma NothingRead(t: string, env: Env)
    requires Unreadable(t)
    ensures Eval(t, env) == (NOTHING, t)
  {
    hide *;
    NoFactor(t, env);
    NoSum(t, env);
    NoComparison(t, env);
    NoEval(t, env);
  }

  lemma NoFactor(t: string, env: Env)
    requires Unreadable(t)
    ensures SkipWs(t) == t && MulDiv(t, env) == (NOTHING, t)
  {
    assert Primary(t, env) == (NOTHING, t);
    assert !AtOp(t, 1);
  }

  lemma NoSum(t: string, env: Env)
    requires Unreadable(t) && SkipWs(t) == t && MulDiv(t, env) == (NOTHING, t)
    ensures AddSub(t, env) == (NOTHING, t)
  {
    hide MulDiv, SkipWs;
    assert !AtOp(t, 2);
  }

  lemma NoComparison(t: string, env: Env)
    requires Unreadable(t) && SkipWs(t) == t && AddSub(t, env) == (NOTHING, t)
    ensures Cmp(t, env) == (NOTHING, t)
  {
    hide AddSub, SkipWs;
    assert CmpAt(t).None?;
  }

  lemma NoEval(t: string, env: Env)
    requires Unreadable(t) && SkipWs(t) == t && Cmp(t, env) == (NOTHING, t)
    ensures Eval(t, env) == (NOTHING, t)
  {
    hide Cmp, SkipWs;
    assert !("not " <= t) && BoolAt(t).None?;
  }

  /** Parentheses do not group: a text that opens one is None, whatever stands inside. */
  lemma GroupsUnread(t: string, env: Env)
    ensures Eval("(" + t, env) == (NOTHING, "(" + t)
  {
    hide Eval;
    NothingRead("(" + t, env);
  }

  /** A number is followed by nothing that is read when what follows neither begins a value nor is an operator. */
  lemma RestStays(n: int, rest: string, env: Env)
    requires Unreadable(rest) && (rest != "" ==> rest[0] != '(')
    ensures Eval(Itoa(n) + rest, env) == (Int(n), rest)
  {
    hide Eval, Itoa;
    var e := Num(n);
    assert Formed(e) && Level(e) == 0 && Print(e) == Itoa(n) && Meaning(e, env) == Int(n);
    RestEnds(rest);
    BlankNothing();
    EvalPrinted(e, "", rest, env);
    assert "" + Itoa(n) + rest == Itoa(n) + rest;
  }

  lemma RestEnds(rest: string)
    requires Unreadable(rest) && (rest != "" ==> rest[0] != '(')
    ensures SkipWs(rest) == rest && Ends(rest, 5)
  {
  }

  // ---- lines ----

  /** A line is an assignment exactly when the first of = : in it is an = that has something in front of it, and not a
      comparison sign right there. */
  lemma AssignsIff(left: string, rest: string)
    requires forall i | 0 <= i < |left| :: left[i] != '=' && left[i] != ':' && left[i] != '\n'
    ensures IsAssignment(left + ("=" + rest)) <==>
      left != "" && left[|left| - 1] != '<' && left[|left| - 1] != '>' && left[|left| - 1] != '!'
    ensures !IsAssignment(left + (":" + rest)) && !IsAssignment(left)
  {
    EqAfter(left, "=" + rest);
    EqAfter(left, ":" + rest);
    EqAfter(left, "");
    assert left + "" == left;
    assert left != "" ==> left[|left| - 1] != '=';
  }

  lemma {:induction false} EqAfter(left: string, tail: string)
    requires forall i | 0 <= i < |left| :: left[i] != '=' && left[i] != ':' && left[i] != '\n'
    requires tail == "" || tail[0] == '=' || tail[0] == ':'
    ensures EqLen(left + tail) == |left|
  {
    if left == "" {
      assert left + tail == tail;
    } else {
      assert (left + tail)[0] == left[0] && (left + tail)[1..] == left[1..] + tail;
      EqAfter(left[1..], tail);
    }
  }

  /** A variable's name: letters, digits and underscores, at most 31. */
  predicate ShortName(name: string) {
    0 < |name| <= 31 && forall i | 0 <= i < |name| :: IsAlnum(name[i])
  }

  /** A comparison for equality that stands alone on its line assigns None to the variable on its left. */
  lemma ComparisonAssigns(name: string, text: string, line: string, n: nat, st: State)
    requires ShortName(name) && Shows(line, n, name + (" == " + text))
    ensures RunLine(line, st) == st.(env := SetVar(st.env, name, NOTHING))
  {
    hide Eval, SkipWs, Indent, SetVar, EqLen, IdentLen, Unreadable;
    var p := name + (" == " + text);
    ComparisonText(name, text);
    IdentRead(name, " == " + text, VAR_MAX);
    NothingRead("= " + text, st.env) by { assert Unreadable("= " + text) by { SingleEquals(text); } }
  }

  lemma SingleEquals(text: string)
    ensures Unreadable("= " + text)
  {
    var t := "= " + text;
    assert t[0] == '=' && t[1] == ' ';
  }

  lemma ComparisonText(name: string, text: string)
    requires ShortName(name)
    ensures var p := name + (" == " + text);
      && IsAssignment(p) && EqLen(p) == |name| + 1 && |name| + 2 <= |p| && p[|name| + 2..] == "= " + text
      && p[..|name|] == name && !("print(" <= p)
  {
    hide EqLen;
    var p, left := name + (" == " + text), name + " ";
    assert p == left + ("=" + ("= " + text));
    assert forall i | 0 <= i < |left| :: left[i] != '=' && left[i] != ':' && left[i] != '\n';
    AssignsIff(left, "= " + text);
    EqAfter(left, "=" + ("= " + text));
    assert |name| > 5 ==> p[5] == name[5];
    assert |name| < 5 ==> p[|name|] == ' ';
  }

  /** So the script with that one line leaves None in the variable, whatever it compares with. */
  lemma ComparisonScript(name: string, text: string, ind: string, st: State)
    requires P.Assignable(name) && AllBlank(ind)
    ensures RunBlock([ind + (name + (" == " + text))], 0, 1, st) == st.(env := SetVar(st.env, name, NOTHING))
  {
    hide Eval, SkipWs, Indent, SetVar, RunLine, Idle;
    var p := name + (" == " + text);
    var lines := [ind + p];
    assert p[0] == name[0] && IsAlpha(p[0]);
    LineShows(ind, p);
    AssignIsPlain(name, " == " + text);
    ComparisonAssigns(name, text, lines[0], |ind|, st);
    assert RunBlock(lines, 1, 1, RunLine(lines[0], st)) == RunLine(lines[0], st);
  }

  /** Blank lines and lines whose first character behind blanks is # do nothing. */
  lemma CommentsIdle(pad: string, text: string, st: State)
    requires AllBlank(pad)
    ensures RunBlock([pad + ("#" + text)], 0, 1, st) == st && RunBlock([pad], 0, 1, st) == st
  {
    hide RunLine, Indent;
    SkipPad(pad, "#" + text);
    SkipPad(pad, "");
    assert pad + "" == pad && Idle(pad + ("#" + text)) && Idle(pad);
    assert RunBlock([pad + ("#" + text)], 1, 1, st) == st && RunBlock([pad], 1, 1, st) == st;
  }
}
