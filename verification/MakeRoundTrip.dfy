/** Reading back a printed Makefile rebuilds its rules, with each $(NAME) replaced by the value NAME has
    at that line. */
module MakeRoundTrip {
  import opened CText
  import opened MakeBuild
  import opened MakeParse
  import opened Wrappers

  /** A text is a list of characters and variable references. */
  datatype Piece = Chr(c: char) | Ref(name: string)
  type Rich = seq<Piece>

  datatype Item =
    | Rule(name: string, deps: seq<Rich>)
    | Recipe(cmd: Rich)
    | Define(name: string, value: Rich)
    | Phony(name: string)
    | Comment(text: string)
    | Blank

  // ---- printing ----

  function Show(p: Piece): (t: string)
    ensures t != ""
  {
    match p
    case Chr(c) => [c]
    case Ref(name) => "$(" + name + ")"
  }

  function Print(r: Rich): string {
    if r == [] then "" else Show(r[0]) + Print(r[1..])
  }

  function PrintDeps(deps: seq<Rich>): string {
    if deps == [] then "" else " " + Print(deps[0]) + PrintDeps(deps[1..])
  }

  function PrintItem(i: Item): string {
    match i
    case Rule(name, deps) => name + ":" + PrintDeps(deps)
    case Recipe(cmd) => "\t" + Print(cmd)
    case Define(name, value) => name + " = " + Print(value)
    case Phony(name) => ".PHONY: " + name
    case Comment(text) => "#" + text
    case Blank => ""
  }

  function PrintAll(items: seq<Item>): string {
    if items == [] then "" else PrintItem(items[0]) + "\n" + PrintAll(items[1..])
  }

  // ---- meaning ----

  /** References are replaced by values, which are not read again. */
  function Value(vars: map<string, string>, r: Rich): string {
    if r == [] then ""
    else (match r[0] case Chr(c) => [c] case Ref(name) => GetVar(vars, name)) + Value(vars, r[1..])
  }

  function Values(vars: map<string, string>, deps: seq<Rich>): seq<string> {
    if deps == [] then [] else [Take(Value(vars, deps[0]), NAME_MAX)] + Values(vars, deps[1..])
  }

  /** The effect of one item. A ninth command of a rule, or a thirty-third variable, is dropped. */
  function Apply(m: Makefile, i: Item): (r: Makefile)
    requires i.Recipe? ==> m.targets != []
  {
    match i
    case Rule(name, deps) =>
      Makefile(m.vars, m.targets + [Target(name, Values(m.vars, deps), [], false)], true,
               if m.targets == [] && !("." <= name) then name else m.goal)
    case Recipe(cmd) => m.(targets := AddCommand(m.targets, Take(Value(m.vars, cmd), LINE_MAX)))
    case Define(name, value) =>
      m.(vars := SetVar(m.vars, name, TrimEnd(Take(Value(m.vars, value), VALUE_MAX))), open := false)
    case Phony(name) => m.(targets := MarkPhony(m.targets, name))
    case Comment(_) => m
    case Blank => m
  }

  // ---- the Makefiles read back ----

  predicate Lacks(t: string, stops: string) {
    forall i | 0 <= i < |t| :: t[i] !in stops
  }

  /** No literal text spells the start of a reference. */
  predicate FormedRich(r: Rich) {
    r != [] ==>
      && FormedRich(r[1..])
      && match r[0]
         case Chr(c) => c !in "\n\r" && (c == '$' && |r| > 1 ==> r[1] != Chr('('))
         case Ref(name) => |name| <= VAR_NAME_MAX && Lacks(name, ")\n\r")
  }

  predicate FormedDep(d: Rich) {
    FormedRich(d) && 0 < |Print(d)| <= NAME_MAX && Lacks(Print(d), " \t")
  }

  predicate FormedItem(i: Item) {
    |PrintItem(i)| <= LINE_MAX &&
    match i
    case Rule(name, deps) =>
      && 0 < |name| <= NAME_MAX && Lacks(name, " \t:=\n\r") && name[0] != '#' && Upper(name) != ".PHONY"
      && |deps| <= MAX_DEPS && forall k | 0 <= k < |deps| :: FormedDep(deps[k])
    case Recipe(cmd) => FormedRich(cmd)
    case Define(name, value) =>
      && 0 < |name| <= VAR_NAME_MAX && Lacks(name, " \t:=\n\r") && name[0] != '#'
      && FormedRich(value) && SkipWs(Print(value)) == Print(value)
    case Phony(name) => |name| <= NAME_MAX && Lacks(name, " \n\r")
    case Comment(text) => Lacks(text, "\n\r")
    case Blank => true
  }

  /** Recipe lines follow a rule, with no definition between; there is room for every rule. */
  predicate FormedAll(items: seq<Item>, open: bool, room: nat) {
    items != [] ==>
      && FormedItem(items[0]) && (items[0].Recipe? ==> open) && (items[0].Rule? ==> room > 0)
      && FormedAll(items[1..], items[0].Rule? || (open && !items[0].Define?), if items[0].Rule? then room - 1 else room)
  }

  function ApplyAll(m: Makefile, items: seq<Item>): Makefile
    requires |m.targets| <= MAX_TARGETS && FormedAll(items, m.open, MAX_TARGETS - |m.targets|)
    requires m.open ==> m.targets != []
    decreases |items|
  {
    if items == [] then m else ApplyAll(Apply(m, items[0]), items[1..])
  }

  // ---- reading one line ----

  lemma {:induction false} LineRead(line: string, rest: string, room: nat)
    requires Lacks(line, "\n\r") && |line| <= room
    ensures ReadLine(line + "\n" + rest, room) == (line, "\n" + rest)
  {
    var t := line + "\n" + rest;
    if line == "" {
      assert t[0] == '\n' && t == "\n" + rest;
    } else {
      assert t[0] == line[0] && t[1..] == line[1..] + "\n" + rest;
      LineRead(line[1..], rest, room - 1);
      assert [line[0]] + line[1..] == line;
    }
  }

  lemma {:induction false} SpanStop(t: string, tail: string, stops: string, max: nat)
    requires Lacks(t, stops) && |t| <= max && (tail != "" ==> tail[0] in stops)
    ensures Span(t + tail, stops, max) == |t|
  {
    var u := t + tail;
    if t == "" {
      assert u == tail;
    } else {
      assert u[0] == t[0] && u[1..] == t[1..] + tail;
      SpanStop(t[1..], tail, stops, max - 1);
    }
  }

  lemma SpanAll(t: string, stops: string, max: nat)
    requires Lacks(t, stops) && |t| <= max
    ensures Span(t, stops, max) == |t|
  {
    hide Lacks, Span;
    SpanStop(t, "", stops, max);
    assert t + "" == t;
  }

  // ---- variable expansion ----

  lemma TakeSplit(a: string, b: string, room: nat)
    ensures Take(a + b, room) == Take(a, room) + Take(b, room - |Take(a, room)|)
  {
  }

  /** One pass of expansion gives the value of the text, cut at the buffer size. */
  lemma {:induction false} ExpandPrinted(vars: map<string, string>, r: Rich, room: nat)
    requires FormedRich(r)
    ensures Expand(vars, Print(r), room) == Take(Value(vars, r), room)
    decreases |r|
  {
    hide Expand, Take, GetVar;
    if r == [] || room == 0 {
      ExpandNothing(vars, Print(r), Value(vars, r), room);
    } else {
      match r[0]
      case Chr(c) =>
        ExpandPrinted(vars, r[1..], room - 1);
        ExpandChr(vars, r, room);
        TakeSplit([c], Value(vars, r[1..]), room);
        TakeOne(c, room);
      case Ref(name) =>
        ExpandPrinted(vars, r[1..], room - |Take(GetVar(vars, name), room)|);
        ExpandRef(vars, name, Print(r[1..]), room);
        TakeSplit(GetVar(vars, name), Value(vars, r[1..]), room);
    }
  }

  lemma ExpandNothing(vars: map<string, string>, src: string, value: string, room: nat)
    requires (src == "" && value == "") || room == 0
    ensures Expand(vars, src, room) == Take(value, room)
  {
  }

  lemma ExpandChr(vars: map<string, string>, r: Rich, room: nat)
    requires FormedRich(r) && r != [] && r[0].Chr? && room > 0
    ensures Expand(vars, Print(r), room) == [r[0].c] + Expand(vars, Print(r[1..]), room - 1)
  {
    hide GetVar, Span, Expand;
    var c, rest := r[0].c, Print(r[1..]);
    if |r| > 1 {
      assert rest[0] == Show(r[1])[0];
    }
    PlainStep(vars, c, rest, room);
  }

  lemma PlainStep(vars: map<string, string>, c: char, rest: string, room: nat)
    requires room > 0 && (c == '$' && rest != "" ==> rest[0] != '(')
    ensures Expand(vars, [c] + rest, room) == [c] + Expand(vars, rest, room - 1)
  {
    hide GetVar, Span, Take;
    var src := [c] + rest;
    assert src[0] == c && src[1..] == rest;
    assert |src| > 1 ==> src[1] == rest[0];
  }

  lemma TakeOne(c: char, room: nat)
    requires room > 0
    ensures Take([c], room) == [c]
  {
  }

  lemma ExpandRef(vars: map<string, string>, name: string, rest: string, room: nat)
    requires |name| <= VAR_NAME_MAX && Lacks(name, ")\n\r") && room > 0
    ensures var value := Take(GetVar(vars, name), room);
      Expand(vars, "$(" + name + ")" + rest, room) == value + Expand(vars, rest, room - |value|)
  {
    hide GetVar, Take, Span, Expand;
    var close := ")" + rest;
    var t := name + close;
    SpanStop(name, close, ")", VAR_NAME_MAX) by { assert Lacks(name, ")"); }
    assert t[..|name|] == name && t[|name|..] == close && close[1..] == rest;
    ExpandStep(vars, "$(" + t, t, |name|, room);
    assert "$(" + name + ")" + rest == "$(" + t;
  }

  lemma ExpandStep(vars: map<string, string>, src: string, t: string, n: nat, room: nat)
    requires src == "$(" + t && room > 0 && n < |t| && Span(t, ")", VAR_NAME_MAX) == n && t[n] == ')'
    ensures var value := Take(GetVar(vars, t[..n]), room);
      Expand(vars, src, room) == value + Expand(vars, t[n..][1..], room - |value|)
  {
    hide GetVar, Take, Span;
    assert AtRef(src) && src[2..] == t;
    assert src[2..2 + n] == t[..n] && src[2 + n..] == t[n..];
  }

  lemma {:induction false} RichLacks(r: Rich)
    requires FormedRich(r)
    ensures Lacks(Print(r), "\n\r")
  {
    if r != [] {
      RichLacks(r[1..]);
    }
  }

  // ---- dependencies ----

  lemma SkipSpacesStops(t: string)
    requires t != "" ==> t[0] != ' '
    ensures SkipSpaces(t) == t
  {
  }

  /** Printed dependencies are read back one by one; what follows them must not go on with the last. */
  lemma {:induction false} DepsPrinted(vars: map<string, string>, deps: seq<Rich>, count: nat)
    requires count + |deps| <= MAX_DEPS && forall k | 0 <= k < |deps| :: FormedDep(deps[k])
    ensures Deps(vars, SkipSpaces(PrintDeps(deps)), count) == Some(Values(vars, deps))
    decreases |deps|
  {
    if deps != [] {
      hide Expand, Take, Value, FormedRich, Print;
      var d, tail := Print(deps[0]), PrintDeps(deps[1..]);
      assert FormedDep(deps[0]);
      DepsPrinted(vars, deps[1..], count + 1);
      ExpandPrinted(vars, deps[0], NAME_MAX);
      DepStep(vars, d, tail, count);
    }
  }

  lemma DepStep(vars: map<string, string>, d: string, tail: string, count: nat)
    requires 0 < |d| <= NAME_MAX && Lacks(d, " \t") && (tail != "" ==> tail[0] in " \t") && count < MAX_DEPS
    ensures Deps(vars, SkipSpaces(" " + d + tail), count)
         == match Deps(vars, SkipSpaces(tail), count + 1)
            case None => None
            case Some(ds) => Some([Expand(vars, d, NAME_MAX)] + ds)
  {
    hide Expand, Span;
    var t := d + tail;
    assert t[0] == d[0];
    assert (" " + d + tail)[0] == ' ' && (" " + d + tail)[1..] == t;
    SkipSpacesStops(t);
    SpanStop(d, tail, " \t", NAME_MAX);
    assert t[..|d|] == d && t[|d|..] == tail;
  }

  /** A tab after n dependencies hangs the reader exactly when the dependency table has room left. */
  lemma {:induction false} TabHangs(vars: map<string, string>, deps: seq<Rich>, rest: string, count: nat)
    requires count + |deps| <= MAX_DEPS && forall k | 0 <= k < |deps| :: FormedDep(deps[k])
    ensures Deps(vars, SkipSpaces(PrintDeps(deps) + ("\t" + rest)), count).None? <==> count + |deps| < MAX_DEPS
    decreases |deps|
  {
    hide Expand, Take, Value, FormedRich, Print, PrintDeps, Lacks, Deps, SkipSpaces;
    var t := "\t" + rest;
    if deps == [] {
      DepsText(deps, t);
      TabStops(vars, t, count) by { assert t[0] == '\t'; }
    } else {
      assert FormedDep(deps[0]);
      var d, tail := Print(deps[0]), PrintDeps(deps[1..]) + t;
      TabHangs(vars, deps[1..], rest, count + 1);
      TabTail(deps[1..], t);
      DepStep(vars, d, tail, count);
      DepsText(deps, t);
    }
  }

  lemma DepsText(deps: seq<Rich>, t: string)
    ensures deps == [] ==> PrintDeps(deps) + t == t
    ensures deps != [] ==> PrintDeps(deps) + t == " " + Print(deps[0]) + (PrintDeps(deps[1..]) + t)
  {
    hide Print;
  }

  lemma TabTail(deps: seq<Rich>, t: string)
    requires t != "" && t[0] == '\t'
    ensures var tail := PrintDeps(deps) + t; tail != "" && tail[0] in " \t"
  {
    hide Print;
    assert deps != [] ==> PrintDeps(deps)[0] == ' ';
  }

  lemma TabStops(vars: map<string, string>, t: string, count: nat)
    requires t != "" && t[0] == '\t'
    ensures Deps(vars, SkipSpaces(t), count).None? <==> count < MAX_DEPS
  {
    hide Expand;
    SkipSpacesStops(t);
  }

  /** Without a tab the dependency loop always ends. */
  lemma {:induction false} NoTabEnds(vars: map<string, string>, t: string, count: nat)
    requires '\t' !in t
    ensures Deps(vars, t, count).Some?
    decreases |t|
  {
    hide Expand;
    if t != "" && count < MAX_DEPS {
      var n := Span(t, " \t", NAME_MAX);
      var u := t[n..];
      SkipSpacesLacks(u, '\t');
      if n == 0 {
        NoTabEnds(vars, SkipSpaces(u), count);
      } else {
        NoTabEnds(vars, SkipSpaces(u), count + 1);
      }
    }
  }

  lemma {:induction false} SkipSpacesLacks(t: string, c: char)
    requires c !in t
    ensures c !in SkipSpaces(t)
  {
    if t != "" && t[0] == ' ' {
      SkipSpacesLacks(t[1..], c);
    }
  }

  // ---- one lemma per kind of line ----

  lemma {:induction false} UpperPrefix(a: string, b: string)
    ensures Upper(a + b) == Upper(a) + Upper(b)
  {
    if a == "" {
      assert a + b == b;
    } else {
      assert (a + b)[1..] == a[1..] + b;
      UpperPrefix(a[1..], b);
    }
  }

  lemma {:induction false} UpperAt(t: string, i: nat)
    requires i < |t|
    ensures Upper(t)[i] == UpperChar(t[i])
  {
    if i > 0 {
      UpperAt(t[1..], i - 1);
    }
  }

  lemma UpperSix(head: string)
    requires |head| == 7
    ensures Upper(head[..6]) == Upper(head)[..6]
  {
    UpperPrefix(head[..6], head[6..]);
    assert head == head[..6] + head[6..];
  }

  /** A line is no .PHONY line when its colon is not its seventh character. */
  lemma NotPhony(name: string, tail: string)
    requires Lacks(name, ":") && tail != ""
    requires tail[0] == ' ' || (tail[0] == ':' && Upper(name) != ".PHONY")
    ensures !IsPhony(name + tail)
  {
    hide Upper;
    var line := name + tail;
    if IsPhony(line) {
      var head := line[..7];
      if |name| < 6 {
        assert head[|name|] == tail[0];
        UpperAt(head, |name|);
      } else if |name| == 6 {
        assert head[..6] == name;
        UpperSix(head);
        UpperAt(head, 6);
      } else {
        assert head[6] == name[6];
        UpperAt(head, 6);
      }
    }
  }

  lemma PhonyWord()
    ensures Upper(".PHONY:") == ".PHONY:"
  {
  }

  lemma RuleLine(m: Makefile, i: Item)
    requires i.Rule? && FormedItem(i) && |m.targets| < MAX_TARGETS && (m.open ==> m.targets != [])
    ensures ParseLine(m, PrintItem(i)) == Some(Apply(m, i))
  {
    hide Upper, Deps, Values, PrintDeps, IsPhony, FormedDep, SkipSpaces;
    var name, right := i.name, PrintDeps(i.deps);
    var line := name + (":" + right);
    assert PrintItem(i) == line;
    NotPhony(name, ":" + right) by { assert Lacks(name, ":"); }
    SpanStop(name, ":" + right, "=:", |line|) by { assert Lacks(name, "=:"); }
    assert line[0] == name[0] && name[0] !in " \t";
    assert line[..|name|] == name && line[|name|] == ':' && line[|name| + 1..] == right;
    RuleParts(m, name, right, i.deps);
  }

  lemma RuleParts(m: Makefile, name: string, right: string, deps: seq<Rich>)
    requires |m.targets| < MAX_TARGETS && (m.open ==> m.targets != []) && right == PrintDeps(deps)
    requires |name| <= NAME_MAX && Lacks(name, " \t:=\n\r")
    requires |deps| <= MAX_DEPS && forall k | 0 <= k < |deps| :: FormedDep(deps[k])
    ensures ParseRule(m, name, right) == Some(Apply(m, Rule(name, deps)))
  {
    hide Deps, Values, PrintDeps, FormedDep, SkipSpaces, Span;
    SpanAll(name, " \t", NAME_MAX) by { assert Lacks(name, " \t"); }
    assert name[..|name|] == name;
    DepsPrinted(m.vars, deps, 0);
  }

  lemma RecipeLine(m: Makefile, i: Item)
    requires i.Recipe? && FormedItem(i) && m.open && m.targets != []
    ensures ParseLine(m, PrintItem(i)) == Some(Apply(m, i))
  {
    hide Expand, Take, Value, Print, Span, IsPhony, FormedRich;
    ExpandPrinted(m.vars, i.cmd, LINE_MAX);
    var line := "\t" + Print(i.cmd);
    assert line[0] == '\t' && line[1..] == Print(i.cmd);
  }

  lemma DefineLine(m: Makefile, i: Item)
    requires i.Define? && FormedItem(i) && (m.open ==> m.targets != [])
    ensures ParseLine(m, PrintItem(i)) == Some(Apply(m, i))
  {
    hide Upper, Expand, Take, Value, Print, IsPhony, SkipWs, TrimEnd, FormedRich, Span, SetVar;
    var name, text := i.name, Print(i.value);
    var line := name + (" = " + text);
    assert PrintItem(i) == line;
    NotPhony(name, " = " + text) by { assert Lacks(name, ":"); }
    ExpandPrinted(m.vars, i.value, VALUE_MAX);
    DefineParts(name, text);
    assert SkipWs(" " + text) == text by {
      BlankPad();
      SkipPad(" ", text);
    }
    assert line[0] == name[0] && name[0] !in " \t";
  }

  lemma BlankPad()
    ensures AllBlank(" ")
  {
  }

  lemma DefineParts(name: string, text: string)
    requires |name| <= VAR_NAME_MAX && Lacks(name, " \t:=\n\r")
    ensures var line := name + (" = " + text);
      var eq := Span(line, "=:", |line|);
      && eq == |name| + 1 && eq < |line| && line[eq] == '=' && line[eq + 1..] == " " + text
      && line[..eq][..Span(line[..eq], " \t", VAR_NAME_MAX)] == name
  {
    hide Span;
    var tail := " = " + text;
    var line := name + tail;
    var left := name + " ";
    var right := "= " + text;
    assert tail == " " + right && line == left + right;
    SpanStop(left, right, "=:", |line|) by { assert Lacks(left, "=:"); }
    SpanStop(name, " ", " \t", VAR_NAME_MAX) by { assert Lacks(name, " \t"); }
    assert line[..|left|] == left && line[|left|..] == right && left[..|name|] == name;
    assert right[0] == '=' && right[1..] == " " + text;
  }

  lemma PhonyLine(m: Makefile, i: Item)
    requires i.Phony? && FormedItem(i) && (m.open ==> m.targets != [])
    ensures ParseLine(m, PrintItem(i)) == Some(Apply(m, i))
  {
    hide Upper, Span, MarkPhony, SkipSpaces;
    var name := i.name;
    var line := ".PHONY: " + name;
    PhonyWord();
    assert line[..7] == ".PHONY:" && line[7..] == " " + name;
    assert SkipSpaces(" " + name) == name by {
      PhonyNameRead(name);
    }
    SpanAll(name, " ", NAME_MAX) by { assert Lacks(name, " "); }
    assert name[..|name|] == name;
    assert line[0] == '.';
  }

  lemma PhonyNameRead(name: string)
    requires Lacks(name, " ")
    ensures SkipSpaces(" " + name) == name
  {
    assert (" " + name)[0] == ' ' && (" " + name)[1..] == name;
    SkipSpacesStops(name);
  }

  lemma ItemLine(m: Makefile, i: Item)
    requires FormedItem(i) && (i.Rule? ==> |m.targets| < MAX_TARGETS) && (i.Recipe? ==> m.open)
    requires m.open ==> m.targets != []
    ensures ParseLine(m, PrintItem(i)) == Some(Apply(m, i))
  {
    hide FormedItem, ParseLine, PrintItem, Apply;
    match i
    case Rule(_, _) => RuleLine(m, i);
    case Recipe(_) => RecipeLine(m, i);
    case Define(_, _) => DefineLine(m, i);
    case Phony(_) => PhonyLine(m, i);
    case Comment(_) => IdleLine(m, i);
    case Blank => IdleLine(m, i);
  }

  lemma IdleLine(m: Makefile, i: Item)
    requires (i.Comment? || i.Blank?) && (m.open ==> m.targets != [])
    ensures ParseLine(m, PrintItem(i)) == Some(Apply(m, i))
  {
    assert i.Comment? ==> PrintItem(i)[0] == '#';
  }

  lemma {:induction false} DepsLack(deps: seq<Rich>)
    requires forall k | 0 <= k < |deps| :: FormedRich(deps[k])
    ensures Lacks(PrintDeps(deps), "\n\r")
  {
    hide Print, FormedRich;
    if deps != [] {
      RichLacks(deps[0]);
      DepsLack(deps[1..]);
    }
  }

  lemma ItemLacks(i: Item)
    requires FormedItem(i)
    ensures Lacks(PrintItem(i), "\n\r")
  {
    hide Print, PrintDeps, FormedRich;
    match i
    case Rule(name, deps) =>
      assert forall k | 0 <= k < |deps| :: FormedDep(deps[k]) ==> FormedRich(deps[k]);
      DepsLack(deps);
    case Recipe(cmd) => RichLacks(cmd);
    case Define(name, value) => RichLacks(value);
    case _ =>
  }

  // ---- the main result ----

  /** Reading a printed Makefile, from any point on, has the effect of its items. */
  lemma {:induction false} ParsePrinted(m: Makefile, items: seq<Item>)
    requires |m.targets| <= MAX_TARGETS && FormedAll(items, m.open, MAX_TARGETS - |m.targets|)
    requires m.open ==> m.targets != []
    ensures Parse(m, PrintAll(items)) == Some(ApplyAll(m, items))
    decreases |items|
  {
    hide FormedItem, ParseLine, PrintItem, ReadLine, AddCommand, MarkPhony, Values, Value, Take, SetVar, TrimEnd;
    if items != [] {
      var i, rest := items[0], PrintAll(items[1..]);
      var line := PrintItem(i);
      ItemLacks(i);
      LineRead(line, rest, LINE_MAX) by { ItemFits(i); }
      ItemLine(m, i);
      ParseStep(m, line, rest, Apply(m, i));
      ParsePrinted(Apply(m, i), items[1..]);
    }
  }

  lemma ItemFits(i: Item)
    requires FormedItem(i)
    ensures |PrintItem(i)| <= LINE_MAX
  {
  }

  lemma ParseStep(m: Makefile, line: string, rest: string, m': Makefile)
    requires (m.open ==> m.targets != []) && (m'.open ==> m'.targets != [])
    requires ReadLine(line + "\n" + rest, LINE_MAX) == (line, "\n" + rest) && ParseLine(m, line) == Some(m')
    ensures Parse(m, line + "\n" + rest) == Parse(m', rest)
  {
    hide ParseLine, ReadLine;
    assert ("\n" + rest)[1..] == rest;
  }
}
