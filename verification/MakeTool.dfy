/** MAKE itself: fixed tables filled through indices, and a recursive builder with `built` flags. */
module MakeTool {
  import opened CText
  import opened MakeBuild
  import opened MakeParse
  import opened Wrappers

  /** The names, distinct up to letter case, with their values in slot order are the map. */
  ghost predicate Spells(names: seq<string>, values: seq<string>, vars: map<string, string>, slot: map<string, nat>) {
    && |names| == |values| == |vars|
    && (forall i | 0 <= i < |names| :: Upper(names[i]) in vars && Upper(names[i]) in slot && slot[Upper(names[i])] == i)
    && (forall u | u in vars :: u in slot && slot[u] < |names| && Upper(names[slot[u]]) == u && vars[u] == values[slot[u]])
  }

  lemma SpellsAppend(names: seq<string>, values: seq<string>, vars: map<string, string>, slot: map<string, nat>,
                     name: string, value: string)
    requires Spells(names, values, vars, slot) && Upper(name) !in vars
    ensures Spells(names + [name], values + [value], vars[Upper(name) := value], slot[Upper(name) := |names|])
  {
    hide Upper;
  }

  /** The variable table: searched in order, case-insensitively. */
  class Variables {
    const names: array<string>
    const values: array<string>
    var count: nat
    ghost var vars: map<string, string>
    ghost var slot: map<string, nat>

    ghost predicate Valid()
      reads this, names, values
    {
      && names != values && names.Length == MAX_VARS && values.Length == MAX_VARS && count <= MAX_VARS
      && Spells(names[..count], values[..count], vars, slot)
    }

    constructor ()
      ensures Valid() && fresh(names) && fresh(values) && vars == map[]
    {
      names := new string[MAX_VARS];
      values := new string[MAX_VARS];
      count, vars, slot := 0, map[], map[];
    }

    /** The slot of a name, or count. */
    method Search(name: string) returns (i: nat)
      requires Valid()
      ensures i <= count
      ensures i < count ==> Upper(names[i]) == Upper(name)
      ensures i == count <==> Upper(name) !in vars
    {
      i := 0;
      while i < count
        invariant i <= count
        invariant forall j | 0 <= j < i :: Upper(names[j]) != Upper(name)
      {
        var d := StrCmp(names[i], name);
        if d == 0 {
          return;
        }
        i := i + 1;
      }
    }

    method Get(name: string) returns (value: string)
      requires Valid()
      ensures value == GetVar(vars, name)
    {
      var i := Search(name);
      value := if i < count then values[i] else "";
    }

    method Set(name: string, value: string)
      requires Valid() && |name| <= VAR_NAME_MAX
      modifies this, names, values
      ensures Valid() && vars == SetVar(old(vars), name, value)
    {
      hide Upper, Take;
      var i := Search(name);
      if i < count {
        Overwrite(i, Take(value, VALUE_MAX));
      } else if count < MAX_VARS {
        Append(name, Take(value, VALUE_MAX));
      }
    }

    method Overwrite(i: nat, value: string)
      requires Valid() && i < count
      modifies this`vars, values
      ensures Valid() && vars == old(vars)[Upper(names[i]) := value]
    {
      hide Upper;
      values[i] := value;
      vars := vars[Upper(names[i]) := value];
      assert names[..count] == old(names[..count]);
      assert values[..count] == old(values[..count])[i := value];
    }

    method Append(name: string, value: string)
      requires Valid() && count < MAX_VARS && Upper(name) !in vars
      modifies this, names, values
      ensures Valid() && vars == old(vars)[Upper(name) := value]
    {
      hide Upper, Spells;
      SpellsAppend(names[..count], values[..count], vars, slot, name, value);
      names[count] := name;
      values[count] := value;
      vars := vars[Upper(name) := value];
      slot := slot[Upper(name) := count];
      count := count + 1;
      assert names[..count] == old(names[..count]) + [name];
      assert values[..count] == old(values[..count]) + [value];
    }

    method ExpandVars(src: string, room: nat) returns (dst: string)
      requires Valid()
      ensures dst == Expand(vars, src, room)
    {
      hide Valid, GetVar, Take, Span;
      var rest := src;
      dst := "";
      while rest != "" && |dst| < room
        invariant |dst| <= room
        invariant Expand(vars, src, room) == dst + Expand(vars, rest, room - |dst|)
        decreases |rest|
      {
        ghost var before := dst;
        var piece;
        piece, rest := ExpandOne(rest, room - |dst|);
        dst := dst + piece;
        assert forall t: string :: before + (piece + t) == dst + t;
      }
    }

    /** One reference or one plain character. */
    method ExpandOne(src: string, room: nat) returns (piece: string, rest: string)
      requires Valid() && src != "" && room > 0
      ensures |rest| < |src| && |piece| <= room
      ensures Expand(vars, src, room) == piece + Expand(vars, rest, room - |piece|)
    {
      hide Valid, GetVar, Take, Span;
      if AtRef(src) {
        var n := ReadSpan(src[2..], ")", VAR_NAME_MAX);
        RefStep(vars, src, room, n);
        hide Expand;
        var value := Get(src[2..2 + n]);
        piece := Take(value, room);
        rest := src[2 + n..];
        if rest != "" && rest[0] == ')' {
          rest := rest[1..];
        }
      } else {
        piece, rest := [src[0]], src[1..];
      }
    }
  }

  lemma RefStep(vars: map<string, string>, src: string, room: nat, n: nat)
    requires AtRef(src) && room > 0 && n == Span(src[2..], ")", VAR_NAME_MAX)
    ensures 2 + n <= |src|
    ensures var value, rest := Take(GetVar(vars, src[2..2 + n]), room), src[2 + n..];
      Expand(vars, src, room)
      == value + Expand(vars, if rest != "" && rest[0] == ')' then rest[1..] else rest, room - |value|)
  {
    hide GetVar, Take, Span;
  }

  method ReadSpan(t: string, stops: string, max: nat) returns (n: nat)
    ensures n == Span(t, stops, max)
  {
    n := 0;
    while n < |t| && t[n] !in stops && n < max
      invariant n <= |t| && n <= max
      invariant Span(t, stops, max) == n + Span(t[n..], stops, max - n)
    {
      assert t[n..][1..] == t[n + 1..];
      n := n + 1;
    }
  }

  method SkipSpaceRun(t: string) returns (p: string)
    ensures p == SkipSpaces(t)
  {
    p := t;
    while p != "" && p[0] == ' '
      invariant SkipSpaces(t) == SkipSpaces(p)
      decreases |p|
    {
      p := p[1..];
    }
  }

  method TrimRun(t: string) returns (s: string)
    ensures s == TrimEnd(t)
  {
    s := t;
    while s != "" && s[|s| - 1] in " \t\r\n"
      invariant TrimEnd(t) == TrimEnd(s)
      decreases |s|
    {
      s := s[..|s| - 1];
    }
  }

  method TakeLine(content: string) returns (line: string, rest: string)
    ensures (line, rest) == ReadLine(content, LINE_MAX)
  {
    line, rest := "", content;
    assert forall t: string :: "" + t == t;
    while rest != "" && rest[0] != '\n' && |line| < LINE_MAX
      invariant |line| <= LINE_MAX
      invariant var (l, r) := ReadLine(rest, LINE_MAX - |line|); ReadLine(content, LINE_MAX) == (line + l, r)
      decreases |rest|
    {
      ghost var before := line;
      var c := rest[0];
      if c != '\r' {
        line := line + [c];
      }
      rest := rest[1..];
      assert forall t: string :: (before + [c]) + t == before + ([c] + t);
    }
    assert line + "" == line;
  }

  method SearchTarget(ts: seq<Target>, name: string) returns (t: nat)
    ensures t == Find(ts, name)
  {
    t := 0;
    while t < |ts|
      invariant t <= |ts|
      invariant Find(ts, name) == t + Find(ts[t..], name)
    {
      var d := StrCmp(ts[t].name, name);
      if d == 0 {
        return;
      }
      assert ts[t..][1..] == ts[t + 1..];
      t := t + 1;
    }
  }

  class Make {
    const vars: Variables
    const run: Dispatch
    const table: array<Target>
    const built: array<bool>
    var count: nat
    var open: bool
    var goal: string
    var history: seq<string>
    ghost var order: seq<nat>
    ghost var marked: set<nat>

    ghost predicate Valid()
      reads this, table, vars, vars.names, vars.values
    {
      && vars.Valid() && table.Length == MAX_TARGETS && built.Length == MAX_TARGETS && count <= MAX_TARGETS
      && (open ==> count > 0)
    }

    ghost function Targets(): (ts: seq<Target>)
      requires count <= table.Length
      reads this, table
    {
      table[..count]
    }

    ghost function Now(): (m: Makefile)
      requires Valid()
      reads this, table, vars, vars.names, vars.values
      ensures m.open ==> m.targets != []
    {
      Makefile(vars.vars, Targets(), open, goal)
    }

    constructor (run: Dispatch)
      ensures Valid() && Now() == EMPTY && this.run == run && history == []
      ensures fresh(vars) && fresh(vars.names) && fresh(vars.values) && fresh(table) && fresh(built)
    {
      vars := new Variables();
      this.run := run;
      table := new Target[MAX_TARGETS](_ => Target("", [], [], false));
      built := new bool[MAX_TARGETS];
      count, open, goal, history, order := 0, false, "", [], [];
    }

    method Expanded(src: string, room: nat) returns (dst: string)
      requires Valid()
      ensures dst == Expand(vars.vars, src, room)
    {
      dst := vars.ExpandVars(src, room);
    }

    /** The dependencies of a rule line. `ended` is false where the loop of the source never ends:
        at a tab with room left in the table it makes no progress. */
    method ParseDeps(text: string) returns (ended: bool, deps: seq<string>)
      requires Valid()
      ensures Deps(vars.vars, SkipSpaces(text), 0) == if ended then Some(deps) else None
    {
      hide Valid, Expand, SkipSpaces;
      var p := SkipSpaceRun(text);
      deps := [];
      ghost var all := Deps(vars.vars, p, 0);
      assert all.Some? ==> [] + all.value == all.value;
      while p != "" && |deps| < MAX_DEPS
        invariant |deps| <= MAX_DEPS
        invariant p != "" ==> p[0] != ' '
        invariant Deps(vars.vars, SkipSpaces(text), 0)
               == match Deps(vars.vars, p, |deps|) case None => None case Some(ds) => Some(deps + ds)
        decreases |p|
      {
        var n := ReadSpan(p, " \t", NAME_MAX);
        if n == 0 && p[0] == '\t' {
          return false, [];
        }
        var dep := Expanded(p[..n], NAME_MAX);
        p := SkipSpaceRun(p[n..]);
        ghost var left := Deps(vars.vars, p, |deps| + 1);
        assert left.Some? ==> deps + ([dep] + left.value) == (deps + [dep]) + left.value;
        deps := deps + [dep];
      }
      assert deps + [] == deps;
      ended := true;
    }

    method ParseMakefile(content: string) returns (ended: bool)
      requires Valid() && Now() == EMPTY
      modifies this`count, this`open, this`goal, table, vars, vars.names, vars.values
      ensures Valid() && Parse(EMPTY, content) == if ended then Some(Now()) else None
    {
      hide Valid, Now, ParseLine, ReadLine;
      var rest := content;
      while rest != ""
        invariant Valid() && Parse(EMPTY, content) == Parse(Now(), rest)
        decreases |rest|
      {
        var line, tail := TakeLine(rest);
        ended := ReadOne(line);
        if !ended {
          return;
        }
        rest := if tail != "" then tail[1..] else "";
      }
      ended := true;
    }

    method ReadOne(line: string) returns (ended: bool)
      requires Valid()
      modifies this`count, this`open, this`goal, table, vars, vars.names, vars.values
      ensures Valid() && ParseLine(old(Now()), line) == if ended then Some(Now()) else None
    {
      hide Variables.Valid, Expand, Span, Deps, TrimEnd, SetVar, MarkPhony, AddCommand, SkipSpaces, SkipWs, Upper;
      ended := true;
      var eq := ReadSpan(line, "=:", |line|);
      if line == "" || line[0] == '#' {
        return;
      } else if line[0] == '\t' && open {
        var cmd := vars.ExpandVars(line[1..], LINE_MAX);
        StoreCommand(cmd);
      } else if IsPhony(line) {
        var p := SkipSpaceRun(line[7..]);
        var n := ReadSpan(p, " ", NAME_MAX);
        SetPhony(p[..n]);
      } else if eq == |line| {
        open := false;
      } else if line[eq] == '=' {
        DefineVar(line[..eq], line[eq + 1..]);
      } else {
        ended := AddRule(line[..eq], line[eq + 1..]);
      }
    }

    method StoreCommand(cmd: string)
      requires Valid() && open
      modifies table
      ensures Valid() && Now() == old(Now()).(targets := AddCommand(old(Targets()), cmd))
    {
      hide Variables.Valid;
      var last := table[count - 1];
      if |last.cmds| < MAX_CMDS {
        table[count - 1] := last.(cmds := last.cmds + [cmd]);
      }
    }

    method SetPhony(name: string)
      requires Valid()
      modifies table
      ensures Valid() && Now() == old(Now()).(targets := MarkPhony(old(Targets()), name))
    {
      hide Variables.Valid, Find;
      var t := SearchTarget(table[..count], name);
      if t < count {
        table[t] := table[t].(phony := true);
      }
    }

    method DefineVar(left: string, right: string)
      requires Valid()
      modifies this`open, vars, vars.names, vars.values
      ensures Valid() && Now() == old(Now()).(open := false,
        vars := SetVar(old(vars.vars), left[..Span(left, " \t", VAR_NAME_MAX)],
                       TrimEnd(Expand(old(vars.vars), SkipWs(right), VALUE_MAX))))
    {
      hide Variables.Valid, Expand, Span, TrimEnd, SetVar, SkipWs;
      var n := ReadSpan(left, " \t", VAR_NAME_MAX);
      var text := SkipBlanks(right);
      var value := vars.ExpandVars(text, VALUE_MAX);
      value := TrimRun(value);
      vars.Set(left[..n], value);
      open := false;
    }

    /** Where the dependency loop never ends, the new entry is not yet counted. */
    method AddRule(left: string, right: string) returns (ended: bool)
      requires Valid()
      modifies this`count, this`open, this`goal, table
      ensures Valid() && ParseRule(old(Now()), left, right) == if ended then Some(Now()) else None
    {
      hide Variables.Valid, Deps, Span, SkipSpaces;
      ended := true;
      if count >= MAX_TARGETS {
        return;
      }
      var n := ReadSpan(left, " \t", NAME_MAX);
      var deps;
      ended, deps := ParseDeps(right);
      if !ended {
        return;
      }
      if count == 0 && !("." <= left[..n]) {
        goal := left[..n];
      }
      table[count] := Target(left[..n], deps, [], false);
      count := count + 1;
      open := true;
      assert table[..count] == old(Targets()) + [table[count - 1]];
    }

    // ---- building ----

    ghost predicate Flagged()
      reads this, built
    {
      built.Length == MAX_TARGETS && forall t | 0 <= t < MAX_TARGETS :: built[t] <==> t in marked
    }

    ghost function Marks(): Progress
      reads this
    {
      Progress(marked, order, history)
    }

    method ResetBuilt()
      requires Valid()
      modifies built, this`order, this`marked
      ensures Flagged() && Marks() == Progress({}, [], history)
    {
      for i := 0 to built.Length
        invariant forall j | 0 <= j < i :: !built[j]
      {
        built[i] := false;
      }
      order, marked := [], {};
    }

    /** `depth` is how many unfinished targets the call stack has room for. */
    method BuildTarget(name: string, depth: nat) returns (o: Outcome)
      requires Valid() && Flagged()
      modifies built, this`history, this`order, this`marked
      ensures Flagged() && (o, Marks()) == Build(Targets(), run, depth, name, old(Marks()))
      decreases depth, 0, 0
    {
      hide Variables.Valid, Find, BuildDeps, RunAll;
      var t := SearchTarget(table[..count], name);
      FindInRange(table[..count], name);
      if t == count {
        return Outcome.Done(-1);
      }
      if built[t] {
        return OK;
      }
      if depth == 0 {
        return Overflow;
      }
      o := BuildAll(table[t].deps, depth - 1);
      if o != OK {
        return;
      }
      var rc := RunCommands(table[t].cmds);
      if rc != 0 {
        return Outcome.Done(rc);
      }
      built[t] := true;
      order, marked := order + [t], marked + {t};
    }

    method BuildAll(deps: seq<string>, depth: nat) returns (o: Outcome)
      requires Valid() && Flagged()
      modifies built, this`history, this`order, this`marked
      ensures Flagged() && (o, Marks()) == BuildDeps(Targets(), run, depth, deps, old(Marks()))
      decreases depth, 1, 0
    {
      hide Variables.Valid, Find, Build;
      o := OK;
      var i := 0;
      assert deps[0..] == deps;
      while i < |deps|
        invariant i <= |deps| && o == OK && Flagged()
        invariant BuildDeps(Targets(), run, depth, deps, old(Marks())) == BuildDeps(Targets(), run, depth, deps[i..], Marks())
      {
        assert deps[i..][1..] == deps[i + 1..] && deps[i..][0] == deps[i];
        var t := SearchTarget(table[..count], deps[i]);
        if t < count {
          o := BuildTarget(deps[i], depth);
          if o != OK {
            return;
          }
        }
        i := i + 1;
      }
    }

    method RunCommands(cmds: seq<string>) returns (rc: int)
      modifies this`history
      ensures (rc, history) == RunAll(run, cmds, old(history))
    {
      var i := 0;
      assert cmds[0..] == cmds;
      while i < |cmds|
        invariant i <= |cmds|
        invariant RunAll(run, cmds, old(history)) == RunAll(run, cmds[i..], history)
      {
        assert cmds[i..][1..] == cmds[i + 1..] && cmds[i..][0] == cmds[i];
        var cmd := Unsilenced(cmds[i]);
        rc := run(history, cmd);
        history := history + [cmd];
        if rc != NOT_FOUND && rc != 0 {
          return;
        }
        i := i + 1;
      }
      rc := 0;
    }
  }

  lemma FindInRange(ts: seq<Target>, name: string)
    ensures Find(ts, name) <= |ts|
  {
  }
}
