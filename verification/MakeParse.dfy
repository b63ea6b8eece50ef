/** The Makefile reader: line splitting, variable expansion and line classification, as functions. */
module MakeParse {
  import opened CText
  import opened MakeBuild
  import opened Wrappers

  const LINE_MAX := 255
  const NAME_MAX := 63
  const VAR_NAME_MAX := 31
  const VALUE_MAX := 127
  const MAX_VARS := 32
  const MAX_TARGETS := 32
  const MAX_CMDS := 8
  const MAX_DEPS := 8

  /** Variables by upper-cased name; `open` says that recipe lines belong to the last target. */
  datatype Makefile = Makefile(vars: map<string, string>, targets: seq<Target>, open: bool, goal: string)

  const EMPTY := Makefile(map[], [], false, "")

  function GetVar(vars: map<string, string>, name: string): string {
    if Upper(name) in vars then vars[Upper(name)] else ""
  }

  function SetVar(vars: map<string, string>, name: string, value: string): map<string, string> {
    if Upper(name) in vars || |vars| < MAX_VARS then vars[Upper(name) := Take(value, VALUE_MAX)] else vars
  }

  /** Length of the text before the first stop character, at most max. */
  function Span(t: string, stops: string, max: nat): (n: nat)
    ensures n <= |t| && n <= max
  {
    if max > 0 && t != "" && t[0] !in stops then 1 + Span(t[1..], stops, max - 1) else 0
  }

  predicate AtRef(src: string) {
    |src| > 1 && src[0] == '$' && src[1] == '('
  }

  /** Replaces each $(NAME) by its value in one pass; `room` characters are still free. */
  function Expand(vars: map<string, string>, src: string, room: nat): string
    decreases |src|
  {
    if src == "" || room == 0 then ""
    else if AtRef(src) then
      var n := Span(src[2..], ")", VAR_NAME_MAX);
      var rest := src[2 + n..];
      var value := Take(GetVar(vars, src[2..2 + n]), room);
      value + Expand(vars, if rest != "" && rest[0] == ')' then rest[1..] else rest, room - |value|)
    else [src[0]] + Expand(vars, src[1..], room - 1)
  }

  function TrimEnd(t: string): string {
    if t != "" && t[|t| - 1] in " \t\r\n" then TrimEnd(t[..|t| - 1]) else t
  }

  /** One line without carriage returns, and the text from where reading stopped. */
  function ReadLine(t: string, room: nat): (r: (string, string))
    ensures |r.1| <= |t|
  {
    if t == "" || t[0] == '\n' || room == 0 then ("", t)
    else if t[0] == '\r' then ReadLine(t[1..], room)
    else
      var (line, rest) := ReadLine(t[1..], room - 1);
      ([t[0]] + line, rest)
  }

  /** The dependency loop of a rule. At a tab it neither reads nor skips anything, so it never ends:
      that is None. */
  function Deps(vars: map<string, string>, t: string, count: nat): Option<seq<string>>
    decreases |t|
  {
    if t == "" || count >= MAX_DEPS then Some([])
    else
      var n := Span(t, " \t", NAME_MAX);
      if n == 0 && t[0] == '\t' then None
      else
        var rest := SkipSpaces(t[n..]);
        if n == 0 then Deps(vars, rest, count)
        else match Deps(vars, rest, count + 1)
          case None => None
          case Some(ds) => Some([Expand(vars, t[..n], NAME_MAX)] + ds)
  }

  predicate IsPhony(line: string) {
    |line| >= 7 && Upper(line[..7]) == ".PHONY:"
  }

  function MarkPhony(ts: seq<Target>, name: string): (r: seq<Target>)
    ensures |r| == |ts|
  {
    var t := Find(ts, name);
    if t < |ts| then ts[t := ts[t].(phony := true)] else ts
  }

  function AddCommand(ts: seq<Target>, cmd: string): (r: seq<Target>)
    requires ts != []
    ensures |r| == |ts|
  {
    var last := ts[|ts| - 1];
    if |last.cmds| < MAX_CMDS then ts[|ts| - 1 := last.(cmds := last.cmds + [cmd])] else ts
  }

  function ParseLine(m: Makefile, line: string): (r: Option<Makefile>)
    requires m.open ==> m.targets != []
    ensures r.Some? && r.value.open ==> r.value.targets != []
  {
    var eq := Span(line, "=:", |line|);
    if line == "" || line[0] == '#' then Some(m)
    else if line[0] == '\t' && m.open then
      Some(m.(targets := AddCommand(m.targets, Expand(m.vars, line[1..], LINE_MAX))))
    else if IsPhony(line) then
      var p := SkipSpaces(line[7..]);
      Some(m.(targets := MarkPhony(m.targets, p[..Span(p, " ", NAME_MAX)])))
    else if eq == |line| then Some(m.(open := false))
    else if line[eq] == '=' then
      var name := line[..eq][..Span(line[..eq], " \t", VAR_NAME_MAX)];
      var value := TrimEnd(Expand(m.vars, SkipWs(line[eq + 1..]), VALUE_MAX));
      Some(m.(vars := SetVar(m.vars, name, value), open := false))
    else ParseRule(m, line[..eq], line[eq + 1..])
  }

  /** A rule line split at its colon. A full table ignores the line altogether. */
  function ParseRule(m: Makefile, left: string, right: string): (r: Option<Makefile>)
    requires m.open ==> m.targets != []
    ensures r.Some? && r.value.open ==> r.value.targets != []
  {
    if |m.targets| >= MAX_TARGETS then Some(m)
    else
      var name := left[..Span(left, " \t", NAME_MAX)];
      var goal := if m.targets == [] && !("." <= name) then name else m.goal;
      match Deps(m.vars, SkipSpaces(right), 0)
      case None => None
      case Some(deps) => Some(Makefile(m.vars, m.targets + [Target(name, deps, [], false)], true, goal))
  }

  function Parse(m: Makefile, content: string): Option<Makefile>
    requires m.open ==> m.targets != []
    decreases |content|
  {
    if content == "" then Some(m)
    else
      var (line, rest) := ReadLine(content, LINE_MAX);
      match ParseLine(m, line)
      case None => None
      case Some(m') => Parse(m', if rest != "" then rest[1..] else "")
  }
}
