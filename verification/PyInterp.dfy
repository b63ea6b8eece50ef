/** The interpreter itself: the variable store is a pair of fixed arrays searched in order, the
    evaluators advance a cursor in loops, and the block executor moves a line index. */
module PyInterp {
  import opened CText
  import opened PyExpr
  import opened PyBlock
  import opened Wrappers

  /** The distinct names with their values, in slot order, are the map. */
  ghost predicate Spells(names: seq<string>, vals: seq<PyVal>, env: Env, slot: map<string, nat>) {
    && |names| == |vals| == |env|
    && (forall i | 0 <= i < |names| :: names[i] in env && env[names[i]] == vals[i] && names[i] in slot && slot[names[i]] == i)
    && (forall name | name in env :: name in slot && slot[name] < |names| && names[slot[name]] == name)
  }

  lemma SpellsAppend(names: seq<string>, vals: seq<PyVal>, env: Env, slot: map<string, nat>, name: string, v: PyVal)
    requires Spells(names, vals, env, slot) && name !in env
    ensures Spells(names + [name], vals + [v], env[name := v], slot[name := |names|])
  {
  }

  lemma SpellsOverwrite(names: seq<string>, vals: seq<PyVal>, env: Env, slot: map<string, nat>, i: nat, v: PyVal)
    requires Spells(names, vals, env, slot) && i < |names|
    ensures Spells(names, vals[i := v], env[names[i] := v], slot)
  {
  }

  class VarStore {
    const names: array<string>
    const vals: array<PyVal>
    var count: nat
    ghost var env: Env
    ghost var slot: map<string, nat>

    /** The first count slots hold distinct names; env is the map they spell. */
    ghost predicate Valid()
      reads this, names, vals
    {
      && names.Length == MAX_VARS && vals.Length == MAX_VARS && count <= MAX_VARS
      && Spells(names[..count], vals[..count], env, slot)
    }

    constructor ()
      ensures Valid() && fresh(names) && fresh(vals) && env == map[]
    {
      names := new string[MAX_VARS];
      vals := new PyVal[MAX_VARS](_ => Int(0));
      count, env, slot := 0, map[], map[];
    }

    method Get(name: string) returns (v: Option<PyVal>)
      requires Valid()
      ensures v == if name in env then Some(env[name]) else None
    {
      var i := 0;
      while i < count
        invariant i <= count
        invariant forall j | 0 <= j < i :: names[j] != name
      {
        if names[i] == name {
          return Some(vals[i]);
        }
        i := i + 1;
      }
      return None;
    }

    method Set(name: string, v: PyVal)
      requires Valid() && |name| <= VAR_MAX
      modifies this, names, vals
      ensures Valid() && env == SetVar(old(env), name, v)
    {
      var i := 0;
      while i < count
        invariant i <= count
        invariant forall j | 0 <= j < i :: names[j] != name
      {
        if names[i] == name {
          Overwrite(i, v);
          return;
        }
        i := i + 1;
      }
      assert name !in env;
      if count < MAX_VARS {
        Append(name, v);
      }
    }

    method Overwrite(i: nat, v: PyVal)
      requires Valid() && i < count
      modifies this`env, vals
      ensures Valid() && env == old(env)[names[i] := v]
    {
      hide Spells;
      SpellsOverwrite(names[..count], vals[..count], env, slot, i, v);
      vals[i] := v;
      env := env[names[i] := v];
      assert names[..count] == old(names[..count]);
      assert vals[..count] == old(vals[..count])[i := v];
    }

    method Append(name: string, v: PyVal)
      requires Valid() && count < MAX_VARS && name !in env
      modifies this, names, vals
      ensures Valid() && env == old(env)[name := v]
    {
      hide Spells;
      SpellsAppend(names[..count], vals[..count], env, slot, name, v);
      names[count] := name;
      vals[count] := v;
      env := env[name := v];
      slot := slot[name := count];
      count := count + 1;
      assert names[..count] == old(names[..count]) + [name];
      assert vals[..count] == old(vals[..count]) + [v];
    }
  }

  class Interpreter {
    const store: VarStore
    var lines: seq<string>
    var out: string

    ghost function Now(): State
      reads this, store
    {
      State(store.env, out)
    }

    constructor (script: seq<string>)
      ensures fresh(store) && fresh(store.names) && fresh(store.vals) && store.Valid()
      ensures lines == script && Now() == State(map[], "")
    {
      store := new VarStore();
      lines, out := script, "";
    }

    // ---- the evaluators ----

    method EvalPrimary(t: string) returns (v: PyVal, end: string)
      requires store.Valid()
      ensures (v, end) == Primary(t, store.env)
      decreases |t|, 1
    {
      var p := SkipBlanks(t);
      if p == "" {
        v, end := PyVal(NoneVal, 0, ""), p;
      } else if p[0] == '"' || p[0] == '\'' {
        v, end := ReadQuoted(p);
      } else if p[0] == '-' && |p| > 1 && IsDigit(p[1]) {
        var n;
        n, end := ReadDigitsFrom(p[1..]);
        v := Int(-n);
      } else if IsDigit(p[0]) {
        var n;
        n, end := ReadDigitsFrom(p);
        v := Int(n);
      } else if IsAlpha(p[0]) {
        v, end := EvalNamed(p);
      } else {
        v, end := PyVal(NoneVal, 0, ""), p;
      }
    }

    method EvalNamed(p: string) returns (v: PyVal, end: string)
      requires store.Valid()
      ensures (v, end) == Named(p, store.env)
      decreases |p|, 0
    {
      var n := ReadIdent(p, NAME_MAX);
      var q := SkipBlanks(p[n..]);
      if q != "" && q[0] == '(' {
        var k := FindMatching(q[1..]);
        var arg := Take(q[1..1 + k], ARG_MAX);
        var a := EvalExpr(arg);
        v := Apply(p[..n], arg, a);
        end := if 1 + k < |q| then q[2 + k..] else "";
      } else {
        var found := store.Get(p[..n]);
        v := if found.Some? then found.value else Int(0);
        end := q;
      }
    }

    method EvalMulDiv(t: string) returns (v: PyVal, end: string)
      requires store.Valid()
      ensures (v, end) == MulDiv(t, store.env)
      decreases |t|, 2
    {
      var cur;
      v, cur := EvalPrimary(t);
      cur := SkipBlanks(cur);
      while AtOp(cur, 1)
        invariant |cur| <= |t|
        invariant MulDiv(t, store.env) == MulLoop(v, cur, store.env)
        decreases |cur|
      {
        var op := OpOf(cur[0]);
        var right;
        right, cur := EvalPrimary(cur[1..]);
        cur := SkipBlanks(cur);
        v := MulOp(op, v, right);
      }
      end := cur;
    }

    method EvalAddSub(t: string) returns (v: PyVal, end: string)
      requires store.Valid()
      ensures (v, end) == AddSub(t, store.env)
      decreases |t|, 3
    {
      hide VarStore.Valid, MulDiv, Primary, AddOp;
      var cur;
      v, cur := EvalMulDiv(t);
      cur := SkipBlanks(cur);
      while AtOp(cur, 2)
        invariant |cur| <= |t|
        invariant AddSub(t, store.env) == AddLoop(v, cur, store.env)
        decreases |cur|
      {
        var op := OpOf(cur[0]);
        var right;
        right, cur := EvalMulDiv(cur[1..]);
        cur := SkipBlanks(cur);
        v := AddOp(op, v, right);
      }
      end := cur;
    }

    method EvalCmp(t: string) returns (v: PyVal, end: string)
      requires store.Valid()
      ensures (v, end) == Cmp(t, store.env)
      decreases |t|, 4
    {
      hide VarStore.Valid, AddSub, CmpOp;
      var cur;
      v, cur := EvalAddSub(t);
      cur := SkipBlanks(cur);
      var op := CmpAt(cur);
      if op.Some? {
        var right;
        right, cur := EvalAddSub(cur[|Spell(op.value)|..]);
        v := CmpOp(op.value, v, right);
      }
      end := cur;
    }

    method EvalNot(t: string) returns (v: PyVal, end: string)
      requires store.Valid()
      ensures (v, end) == NotLevel(t, store.env)
      decreases |t|, 5
    {
      hide VarStore.Valid, Cmp;
      var p := SkipBlanks(t);
      if "not " <= p {
        v, end := EvalCmp(p[4..]);
        v := NotOp(v);
      } else {
        v, end := EvalCmp(p);
      }
    }

    method EvalExpr(t: string) returns (v: PyVal)
      requires store.Valid()
      ensures v == Eval(t, store.env).0
      decreases |t|, 6
    {
      hide VarStore.Valid, NotLevel, BoolOp;
      var cur;
      v, cur := EvalNot(t);
      cur := SkipBlanks(cur);
      while true
        invariant |cur| <= |t|
        invariant Eval(t, store.env) == BoolLoop(v, cur, store.env)
        decreases |cur|
      {
        var op := BoolAt(cur);
        if op.None? {
          break;
        }
        var right;
        right, cur := EvalNot(cur[|Spell(op.value)|..]);
        cur := SkipBlanks(cur);
        v := BoolOp(op.value, v, right);
      }
    }

    // ---- statements ----

    method FindBlockEnd(start: nat, base: nat) returns (i: nat)
      requires start <= |lines|
      ensures i == BlockEnd(lines, start, base) && start <= i <= |lines|
    {
      i := start;
      while i < |lines|
        invariant start <= i <= |lines|
        invariant BlockEnd(lines, start, base) == BlockEnd(lines, i, base)
      {
        if !Idle(lines[i]) && Indent(lines[i]) <= base {
          break;
        }
        i := i + 1;
      }
    }

    method PrintValues(args: string) returns (shown: string)
      requires store.Valid()
      ensures shown == PrintArgs(args, store.env)
    {
      hide VarStore.Valid, Eval, Show, Take;
      shown := "";
      var rest := args;
      while true
        invariant PrintArgs(args, store.env) == shown + PrintArgs(rest, store.env)
        decreases |rest|
      {
        var n := ReadUntil(rest, ',', |rest|);
        var v := EvalExpr(Take(rest[..n], PART_MAX));
        shown := shown + Show(v);
        if n == |rest| {
          return;
        }
        shown := shown + " ";
        rest := rest[n + 1..];
      }
    }

    method ExecLine(lineno: nat)
      requires store.Valid() && lineno < |lines|
      modifies this`out, store, store.names, store.vals
      ensures store.Valid() && Now() == RunLine(lines[lineno], old(Now()))
    {
      hide VarStore.Valid, Eval, PrintArgs, Matching, IdentLen, SetVar;
      var p := SkipBlanks(lines[lineno]);
      if p == "" || p[0] == '#' {
        return;
      }
      if "print(" <= p {
        var k := FindMatching(p[6..]);
        var shown := PrintValues(Take(p[6..6 + k], ARG_MAX));
        out := out + shown + "\n";
        return;
      }
      if IsAssignment(p) {
        var n := ReadIdent(p, VAR_MAX);
        var v := EvalExpr(p[EqLen(p) + 1..]);
        store.Set(p[..n], v);
        return;
      }
      var _ := EvalExpr(p);
    }

    method ExecBlock(start: nat, end: nat)
      requires store.Valid() && end <= |lines|
      modifies this`out, store, store.names, store.vals
      ensures store.Valid() && Now() == RunBlock(lines, start, end, old(Now()))
      decreases |lines| - start, 0, 0
    {
      hide VarStore.Valid;
      var i := start;
      while i < end
        invariant store.Valid() && start <= i
        invariant RunBlock(lines, start, end, old(Now())) == RunBlock(lines, i, end, Now())
        decreases |lines| - i
      {
        hide RunBlock;
        i := ExecAt(i, end);
      }
    }

    /** One round of the block loop: runs what starts at line i and returns the line to go on from. */
    method ExecAt(i: nat, end: nat) returns (next: nat)
      requires store.Valid() && i < end <= |lines|
      modifies this`out, store, store.names, store.vals
      ensures store.Valid() && i < next
      ensures RunBlock(lines, next, end, Now()) == RunBlock(lines, i, end, old(Now()))
      decreases |lines| - i - 1, 3, 0
    {
      hide VarStore.Valid, RunLine, RunArm, RunWhile, RunFor, Eval, Idle, Indent, SkipWs;
      var p := SkipBlanks(lines[i]);
      var base := Indent(lines[i]);
      if Idle(lines[i]) {
        next := i + 1;
      } else if IsArm(p) {
        next := ExecArm(i, end);
      } else if "else" <= p {
        next := i + 1;
      } else if "while " <= p {
        var n := ReadUntil(p[6..], ':', ARG_MAX);
        next := FindBlockEnd(i + 1, base);
        ExecWhile(p[6..][..n], i + 1, next);
      } else if "for " <= p {
        next := FindBlockEnd(i + 1, base);
        var v := EvalExpr(ForIter(p));
        var (a, b) := Bounds(v);
        ExecFor(ForVar(p), a, b, i + 1, next);
      } else {
        ExecLine(i);
        next := i + 1;
      }
    }

    /** An `if` or `elif` header: runs the chosen body and returns the line to go on from. */
    method ExecArm(i: nat, end: nat) returns (next: nat)
      requires store.Valid() && i < end <= |lines| && IsArm(SkipWs(lines[i]))
      modifies this`out, store, store.names, store.vals
      ensures store.Valid() && i < next
      ensures RunBlock(lines, next, end, Now()) == RunArm(lines, i, end, old(Now()))
      decreases |lines| - i - 1, 2, 0
    {
      hide VarStore.Valid, RunBlock, Eval, Idle, Indent, SkipWs, ContinuesChain;
      var base := Indent(lines[i]);
      var cv := EvalExpr(ArmCond(SkipWs(lines[i])));
      var be := FindBlockEnd(i + 1, base);
      if cv.ival != 0 {
        ExecBlock(i + 1, be);
        next := be;
        while next < end && ContinuesChain(lines[next], base)
          invariant be <= next <= |lines|
          invariant SkipArms(lines, be, end, base) == SkipArms(lines, next, end, base)
          modifies {}
          decreases |lines| - next
        {
          next := FindBlockEnd(next + 1, base);
        }
        assert SkipArms(lines, be, end, base) == next;
      } else {
        next := be;
        if next < end && ContinuesChain(lines[next], base) && !("elif " <= SkipWs(lines[next])) {
          next := FindBlockEnd(be + 1, base);
          ExecBlock(be + 1, next);
        }
      }
    }

    method ExecWhile(cond: string, bs: nat, be: nat)
      requires store.Valid() && be <= |lines|
      modifies this`out, store, store.names, store.vals
      ensures store.Valid() && Now() == RunWhile(lines, cond, bs, be, 0, old(Now()))
      decreases |lines| - bs, 1, 0
    {
      hide VarStore.Valid, RunBlock, Eval;
      var guard := 0;
      while true
        invariant store.Valid() && 0 <= guard <= MAX_ROUNDS
        invariant RunWhile(lines, cond, bs, be, 0, old(Now())) == RunWhile(lines, cond, bs, be, guard, Now())
        decreases MAX_ROUNDS - guard
      {
        var cv := EvalExpr(cond);
        if cv.ival == 0 || guard >= MAX_ROUNDS {
          break;
        }
        ExecBlock(bs, be);
        guard := guard + 1;
      }
    }

    method ExecFor(name: string, a: int, b: int, bs: nat, be: nat)
      requires store.Valid() && be <= |lines| && |name| <= VAR_MAX
      modifies this`out, store, store.names, store.vals
      ensures store.Valid() && Now() == RunFor(lines, name, a, b, bs, be, old(Now()))
      decreases |lines| - bs, 1, 0
    {
      hide VarStore.Valid, RunBlock, SetVar;
      var ri := a;
      while ri < b
        invariant store.Valid()
        invariant RunFor(lines, name, a, b, bs, be, old(Now())) == RunFor(lines, name, ri, b, bs, be, Now())
        decreases b - ri
      {
        store.Set(name, Int(ri));
        ExecBlock(bs, be);
        ri := ri + 1;
      }
    }
  }

  // ---- cursors ----

  method ReadDigitsFrom(t: string) returns (n: int, p: string)
    ensures (n, p) == ReadNum(t, 0)
  {
    n, p := 0, t;
    while p != "" && IsDigit(p[0])
      invariant ReadNum(t, 0) == ReadNum(p, n)
      decreases |p|
    {
      n, p := n * 10 + DigitValue(p[0]), p[1..];
    }
  }

  method ReadIdent(t: string, max: nat) returns (n: nat)
    ensures n == IdentLen(t, max)
  {
    n := 0;
    while n < |t| && IsAlnum(t[n]) && n < max
      invariant n <= |t| && n <= max
      invariant IdentLen(t, max) == n + IdentLen(t[n..], max - n)
    {
      assert t[n..][1..] == t[n + 1..];
      n := n + 1;
    }
  }

  method ReadUntil(t: string, stop: char, max: nat) returns (n: nat)
    ensures n == BodyLen(t, stop, max)
  {
    n := 0;
    while n < |t| && t[n] != stop && n < max
      invariant n <= |t| && n <= max
      invariant BodyLen(t, stop, max) == n + BodyLen(t[n..], stop, max - n)
    {
      assert t[n..][1..] == t[n + 1..];
      n := n + 1;
    }
  }

  method ReadQuoted(p: string) returns (v: PyVal, end: string)
    requires p != ""
    ensures (v, end) == Quoted(p)
  {
    var n := ReadUntil(p[1..], p[0], STR_MAX);
    var q := p[1 + n..];
    v, end := PyVal(StrVal, 0, p[1..1 + n]), if q != "" && q[0] == p[0] then q[1..] else q;
  }

  /** The collecting loop of a call: stop at the parenthesis that brings the depth to zero. */
  method FindMatching(t: string) returns (k: nat)
    ensures k == Matching(t, 1)
  {
    k := 0;
    var depth := 1;
    while k < |t|
      invariant k <= |t| && depth > 0
      invariant Matching(t, 1) == k + Matching(t[k..], depth)
    {
      if t[k] == '(' {
        depth := depth + 1;
      } else if t[k] == ')' {
        depth := depth - 1;
        if depth == 0 {
          break;
        }
      }
      assert t[k..][1..] == t[k + 1..];
      k := k + 1;
    }
  }

  /** py_itoa: digits least significant first into a scratch buffer, then reversed. */
  method PrintInt(n: int) returns (buf: string)
    ensures buf == Itoa(n)
  {
    if n == 0 {
      return "0";
    }
    var tmp := ScratchDigits(if n < 0 then -n else n);
    var digits := Reverse(tmp);
    buf := if n < 0 then "-" + digits else digits;
  }

  method ScratchDigits(n: nat) returns (tmp: string)
    requires n > 0
    ensures Reversed(tmp) == Digits(n)
  {
    var m := n;
    tmp := "";
    while m > 0
      invariant (if m > 0 then Digits(m) else "") + Reversed(tmp) == Digits(n)
    {
      ReversedPush(tmp, DigitChar(m % 10));
      tmp := tmp + [DigitChar(m % 10)];
      m := m / 10;
    }
  }

  method Reverse(t: string) returns (buf: string)
    ensures buf == Reversed(t)
  {
    buf := "";
    var j := |t|;
    assert t[..j] == t;
    while j > 0
      invariant 0 <= j <= |t|
      invariant buf + Reversed(t[..j]) == Reversed(t)
    {
      j := j - 1;
      ReversedPush(t[..j], t[j]);
      assert t[..j + 1] == t[..j] + [t[j]];
      buf := buf + [t[j]];
    }
  }

  function Reversed(t: string): string {
    if t == "" then "" else Reversed(t[1..]) + [t[0]]
  }

  lemma {:induction false} ReversedPush(t: string, c: char)
    ensures Reversed(t + [c]) == [c] + Reversed(t)
  {
    if t != "" {
      assert (t + [c])[1..] == t[1..] + [c];
      ReversedPush(t[1..], c);
    }
  }
}
