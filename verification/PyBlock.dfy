/** The AurionPython block executor as the recursive functions its loops compute: it finds nesting by
    indentation and walks line indices. Every function is total, so every script terminates. */
module PyBlock {
  import opened CText
  import opened PyExpr

  datatype State = State(env: Env, out: string)

  const MAX_VARS := 32
  const MAX_ROUNDS := 100000
  const VAR_MAX := 31
  const PART_MAX := 127
  const RANGE_MAX := 15

  /** A known variable is overwritten, a new one is dropped once the store is full. */
  function SetVar(env: Env, name: string, v: PyVal): Env {
    if name in env || |env| < MAX_VARS then env[name := v] else env
  }

  function Indent(line: string): (n: nat)
    ensures n <= |line|
  {
    if line != "" && IsBlank(line[0]) then 1 + Indent(line[1..]) else 0
  }

  /** Blank and comment lines. */
  predicate Idle(line: string) {
    var p := SkipWs(line);
    p == "" || p[0] == '#'
  }

  /** The end of the block whose first line is i, under a header indented by base. */
  function BlockEnd(lines: seq<string>, i: nat, base: nat): (e: nat)
    requires i <= |lines|
    ensures i <= e <= |lines|
    decreases |lines| - i
  {
    if i == |lines| then i
    else if !Idle(lines[i]) && Indent(lines[i]) <= base then i
    else BlockEnd(lines, i + 1, base)
  }

  /** The text up to a stop character, at most max characters of it. */
  function Before(t: string, stop: char, max: nat): string {
    t[..BodyLen(t, stop, max)]
  }

  function Show(v: PyVal): string {
    if v.kind == NoneVal then "" else Text(v)
  }

  /** The output of print for its raw arguments: split at every comma, joined by a space. */
  function PrintArgs(args: string, env: Env): string {
    var n := BodyLen(args, ',', |args|);
    var shown := Show(Eval(Take(args[..n], PART_MAX), env).0);
    if n == |args| then shown else shown + " " + PrintArgs(args[n + 1..], env)
  }

  /** Length of the text before the first '=', ':' or newline. */
  function EqLen(p: string): (n: nat)
    ensures n <= |p|
  {
    if p == "" || p[0] == '=' || p[0] == ':' || p[0] == '\n' then 0 else 1 + EqLen(p[1..])
  }

  predicate IsAssignment(p: string) {
    var n := EqLen(p);
    0 < n < |p| && p[n] == '=' && p[n - 1] !in "<>!="
  }

  function RunLine(line: string, st: State): State {
    var p := SkipWs(line);
    if Idle(line) then st
    else if "print(" <= p then
      var k := Matching(p[6..], 1);
      st.(out := st.out + PrintArgs(Take(p[6..6 + k], ARG_MAX), st.env) + "\n")
    else if IsAssignment(p) then
      st.(env := SetVar(st.env, p[..IdentLen(p, VAR_MAX)], Eval(p[EqLen(p) + 1..], st.env).0))
    else st
  }

  predicate IsArm(p: string) {
    "if " <= p || "elif " <= p
  }

  /** The condition of an `if` or `elif` header. */
  function ArmCond(p: string): string
    requires IsArm(p)
  {
    Before(if p[0] == 'i' then p[3..] else p[5..], ':', ARG_MAX)
  }

  predicate ContinuesChain(line: string, base: nat) {
    var p := SkipWs(line);
    Indent(line) == base && ("elif " <= p || "else" <= p)
  }

  /** Past every `elif` and `else` arm that starts at i with this indentation. */
  function SkipArms(lines: seq<string>, i: nat, end: nat, base: nat): (e: nat)
    requires i <= |lines| && end <= |lines|
    ensures i <= e <= |lines|
    decreases |lines| - i
  {
    if i < end && ContinuesChain(lines[i], base) then
      SkipArms(lines, BlockEnd(lines, i + 1, base), end, base)
    else i
  }

  /** The loop variable and the iterable text of a `for` header. */
  function ForVar(p: string): string
    requires "for " <= p
  {
    p[4..][..IdentLen(p[4..], VAR_MAX)]
  }

  function ForIter(p: string): string
    requires "for " <= p
  {
    var q := SkipWs(p[4..][IdentLen(p[4..], VAR_MAX)..]);
    Before(if "in " <= q then q[3..] else q, ':', PART_MAX)
  }

  /** The bounds packed by range(); anything else iterates nowhere. */
  function Bounds(v: PyVal): (int, int) {
    if v.kind == StrVal && v.sval != "" && v.sval[0] == RANGE_MARK then
      var args := v.sval[1..];
      var n := BodyLen(args, ',', |args|);
      if n < |args| then (Atoi(Take(args[..n], RANGE_MAX)), Atoi(args[n + 1..])) else (0, Atoi(args))
    else (0, 0)
  }

  function RunBlock(lines: seq<string>, i: nat, end: nat, st: State): State
    requires end <= |lines|
    decreases |lines| - i, 0, 0
  {
    if i >= end then st
    else
      var p := SkipWs(lines[i]);
      var base := Indent(lines[i]);
      if Idle(lines[i]) then RunBlock(lines, i + 1, end, st)
      else if IsArm(p) then RunArm(lines, i, end, st)
      else if "else" <= p then RunBlock(lines, i + 1, end, st)
      else if "while " <= p then
        var be := BlockEnd(lines, i + 1, base);
        RunBlock(lines, be, end, RunWhile(lines, Before(p[6..], ':', ARG_MAX), i + 1, be, 0, st))
      else if "for " <= p then
        var be := BlockEnd(lines, i + 1, base);
        var (a, b) := Bounds(Eval(ForIter(p), st.env).0);
        RunBlock(lines, be, end, RunFor(lines, ForVar(p), a, b, i + 1, be, st))
      else RunBlock(lines, i + 1, end, RunLine(lines[i], st))
  }

  /** From an `if` or `elif` header on. */
  function RunArm(lines: seq<string>, i: nat, end: nat, st: State): State
    requires i < end <= |lines| && IsArm(SkipWs(lines[i]))
    decreases |lines| - i - 1, 2, 0
  {
    var base := Indent(lines[i]);
    var be := BlockEnd(lines, i + 1, base);
    if Eval(ArmCond(SkipWs(lines[i])), st.env).0.ival != 0 then
      RunBlock(lines, SkipArms(lines, be, end, base), end, RunBlock(lines, i + 1, be, st))
    else RunOtherwise(lines, be, end, base, st)
  }

  /** After an arm whose condition failed: an `else` arm runs, an `elif` line is read as a header. */
  function RunOtherwise(lines: seq<string>, be: nat, end: nat, base: nat, st: State): State
    requires be <= |lines| && end <= |lines|
    decreases |lines| - be, 1, 0
  {
    if be < end && ContinuesChain(lines[be], base) && !("elif " <= SkipWs(lines[be])) then
      var ee := BlockEnd(lines, be + 1, base);
      RunBlock(lines, ee, end, RunBlock(lines, be + 1, ee, st))
    else RunBlock(lines, be, end, st)
  }

  function RunWhile(lines: seq<string>, cond: string, bs: nat, be: nat, rounds: nat, st: State): State
    requires be <= |lines| && rounds <= MAX_ROUNDS
    decreases |lines| - bs, 1, MAX_ROUNDS - rounds
  {
    if Eval(cond, st.env).0.ival != 0 && rounds < MAX_ROUNDS then
      RunWhile(lines, cond, bs, be, rounds + 1, RunBlock(lines, bs, be, st))
    else st
  }

  function RunFor(lines: seq<string>, name: string, a: int, b: int, bs: nat, be: nat, st: State): State
    requires be <= |lines|
    decreases |lines| - bs, 1, b - a
  {
    if a >= b then st
    else
      var st1 := st.(env := SetVar(st.env, name, Int(a)));
      RunFor(lines, name, a + 1, b, bs, be, RunBlock(lines, bs, be, st1))
  }

  // ---- nesting ----

  /** A range of lines is a block under a header indented by base: every working line in it is deeper,
      and it is closed by the end of the script or by a working line that is not. */
  predicate IsBlock(lines: seq<string>, i: nat, end: nat, base: int) {
    && i <= end <= |lines|
    && (forall k | i <= k < end :: Idle(lines[k]) || Indent(lines[k]) > base)
    && (end < |lines| ==> !Idle(lines[end]) && Indent(lines[end]) <= base)
  }

  /** What find_block_end finds is a block, and the only one starting there. */
  lemma {:induction false} BlockEndIsBlock(lines: seq<string>, i: nat, base: nat)
    requires i <= |lines|
    ensures forall e: nat :: IsBlock(lines, i, e, base) <==> e == BlockEnd(lines, i, base)
    decreases |lines| - i
  {
    if i < |lines| {
      var stop := !Idle(lines[i]) && Indent(lines[i]) <= base;
      if !stop {
        BlockEndIsBlock(lines, i + 1, base);
        forall e: nat
          ensures IsBlock(lines, i, e, base) <==> e == BlockEnd(lines, i, base)
        {
          assert IsBlock(lines, i, e, base) ==> IsBlock(lines, i + 1, e, base);
          assert IsBlock(lines, i + 1, e, base) ==> IsBlock(lines, i, e, base);
        }
      }
    }
  }

  /** Every body found from a header inside a block lies inside that block. */
  lemma {:induction false} BodyInsideBlock(lines: seq<string>, start: nat, end: nat, base: int, i: nat)
    requires IsBlock(lines, start, end, base) && start <= i < end && !Idle(lines[i])
    ensures i + 1 <= BlockEnd(lines, i + 1, Indent(lines[i])) <= end
    ensures IsBlock(lines, i + 1, BlockEnd(lines, i + 1, Indent(lines[i])), Indent(lines[i]))
  {
    BlockEndIsBlock(lines, i + 1, Indent(lines[i]));
    var e := BlockEnd(lines, i + 1, Indent(lines[i]));
    assert IsBlock(lines, i + 1, e, Indent(lines[i]));
  }
}
