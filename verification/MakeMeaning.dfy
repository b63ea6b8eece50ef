/** What a Makefile means, said without the parser: the recipe of a rule in the order of its lines, the value of a
    reference as the last definition of its name, trimmed values, and the target a .PHONY line marks. */
module MakeMeaning {
  import opened CText
  import opened TextFacts
  import opened MakeBuild
  import opened MakeParse
  import opened MakeRoundTrip
  import opened Wrappers

  // ---- recipes ----

  /** The lines that may stand in a recipe. */
  predicate InRecipe(i: Item) {
    i.Recipe? || i.Comment? || i.Blank? || i.Phony?
  }

  /** The values of the recipe lines among the items, in order. */
  function Commands(vars: map<string, string>, items: seq<Item>): seq<string> {
    if items == [] then []
    else if items[0].Recipe? then [Value(vars, items[0].cmd)] + Commands(vars, items[1..])
    else Commands(vars, items[1..])
  }

  /** The first eight of them. */
  function Eight(cmds: seq<string>): seq<string> {
    if |cmds| <= 8 then cmds else cmds[..8]
  }

  /** Every value fits the buffer of a command. */
  predicate Short(cmds: seq<string>) {
    forall i | 0 <= i < |cmds| :: |cmds[i]| <= 255
  }

  /** Two lists of targets that differ at most in what is phony, and in the commands of the last. */
  ghost predicate SameBut(a: seq<Target>, b: seq<Target>) {
    && |a| == |b|
    && (forall k | 0 <= k < |a| :: a[k].name == b[k].name && a[k].deps == b[k].deps)
    && (forall k | 0 <= k < |a| - 1 :: a[k].cmds == b[k].cmds)
  }

  lemma {:induction false} RecipeLines(m: Makefile, items: seq<Item>)
    requires m.open && m.targets != [] && |m.targets| <= MAX_TARGETS && FormedAll(items, m.open, MAX_TARGETS - |m.targets|)
    requires (forall i | 0 <= i < |items| :: InRecipe(items[i])) && |m.targets[|m.targets| - 1].cmds| <= 8
    requires Short(Commands(m.vars, items))
    ensures var r := ApplyAll(m, items);
      && r.vars == m.vars && r.open && r.goal == m.goal && SameBut(m.targets, r.targets)
      && r.targets[|m.targets| - 1].cmds == Eight(m.targets[|m.targets| - 1].cmds + Commands(m.vars, items))
    decreases |items|
  {
    hide FormedItem, Value, Take, Apply, SameBut, Short;
    var last := m.targets[|m.targets| - 1].cmds;
    if items == [] {
      assert last + [] == last;
      SameButSelf(m.targets);
    } else {
      assert InRecipe(items[0]);
      var more := Commands(m.vars, items[1..]);
      var next := Apply(m, items[0]);
      ShortStep(m.vars, items);
      ItemApplies(m, items[0]);
      SameButLength(m.targets, next.targets);
      RecipeLines(next, items[1..]);
      SameButTwice(m.targets, next.targets, ApplyAll(next, items[1..]).targets);
      if items[0].Recipe? {
        EightMore(last, Value(m.vars, items[0].cmd), more);
      }
    }
  }

  lemma SameButSelf(a: seq<Target>)
    ensures SameBut(a, a)
  {
  }

  lemma SameButLength(a: seq<Target>, b: seq<Target>)
    requires SameBut(a, b)
    ensures |a| == |b|
  {
  }

  lemma SameButTwice(a: seq<Target>, b: seq<Target>, c: seq<Target>)
    requires SameBut(a, b) && SameBut(b, c)
    ensures SameBut(a, c)
  {
  }

  lemma ShortStep(vars: map<string, string>, items: seq<Item>)
    requires items != [] && Short(Commands(vars, items))
    ensures Short(Commands(vars, items[1..])) && (items[0].Recipe? ==> |Value(vars, items[0].cmd)| <= 255)
  {
    hide Value;
    var cs, rest := Commands(vars, items), Commands(vars, items[1..]);
    if items[0].Recipe? {
      assert cs[0] == Value(vars, items[0].cmd);
      assert forall i | 0 <= i < |rest| :: rest[i] == cs[i + 1];
    }
  }

  lemma EightMore(last: seq<string>, cmd: string, more: seq<string>)
    requires |last| <= 8
    ensures Eight((if |last| < 8 then last + [cmd] else last) + more) == Eight(last + ([cmd] + more))
  {
    assert |last| < 8 ==> (last + [cmd]) + more == last + ([cmd] + more);
    assert |last| == 8 ==> (last + more)[..8] == last && (last + ([cmd] + more))[..8] == last;
  }

  /** A recipe line puts its value behind the commands of the last target while there are fewer than eight; the other
      lines leave all commands. */
  lemma ItemApplies(m: Makefile, i: Item)
    requires m.targets != [] && InRecipe(i) && (i.Recipe? ==> |Value(m.vars, i.cmd)| <= 255)
    ensures var r := Apply(m, i);
      var last := m.targets[|m.targets| - 1].cmds;
      && r.vars == m.vars && r.open == m.open && r.goal == m.goal && SameBut(m.targets, r.targets)
      && r.targets[|m.targets| - 1].cmds == if i.Recipe? && |last| < 8 then last + [Value(m.vars, i.cmd)] else last
  {
    hide Value, Find;
    if i.Recipe? {
      TakeIsFront(Value(m.vars, i.cmd), 255);
      assert Take(Value(m.vars, i.cmd), LINE_MAX) == Value(m.vars, i.cmd);
    }
  }

  /** Reading a printed rule with its recipe, blank lines, comments and .PHONY lines between: one more target, with its
      name, its dependencies and, in the order of their lines, the values of its first eight commands. */
  lemma RuleIsRead(m: Makefile, rule: Item, items: seq<Item>)
    requires rule.Rule? && (m.open ==> m.targets != []) && |m.targets| <= MAX_TARGETS
    requires FormedAll([rule] + items, m.open, MAX_TARGETS - |m.targets|)
    requires (forall i | 0 <= i < |items| :: InRecipe(items[i])) && Short(Commands(m.vars, items))
    ensures var r := Parse(m, PrintAll([rule] + items));
      && r.Some? && r.value.vars == m.vars && |r.value.targets| == |m.targets| + 1
      && (forall k | 0 <= k < |m.targets| :: SameTarget(m.targets[k], r.value.targets[k]))
      && var t := r.value.targets[|m.targets|];
      t.name == rule.name && t.deps == Values(m.vars, rule.deps) && t.cmds == Eight(Commands(m.vars, items))
  {
    hide FormedItem, Value, Values, Parse, PrintAll, SameBut;
    var all := [rule] + items;
    assert all[0] == rule && all[1..] == items;
    ParsePrinted(m, all);
    var next := Apply(m, rule);
    assert next.open && |next.targets| == |m.targets| + 1;
    RecipeLines(next, items);
    var r := ApplyAll(next, items);
    assert [] + Commands(m.vars, items) == Commands(m.vars, items);
    SameBelow(m.targets, next.targets[|m.targets|], r.targets);
  }

  /** The same rule, phony or not. */
  predicate SameTarget(a: Target, b: Target) {
    a.name == b.name && a.deps == b.deps && a.cmds == b.cmds
  }

  lemma SameBelow(ts: seq<Target>, t: Target, r: seq<Target>)
    requires SameBut(ts + [t], r)
    ensures |r| == |ts| + 1 && r[|ts|].name == t.name && r[|ts|].deps == t.deps
    ensures forall k | 0 <= k < |ts| :: SameTarget(ts[k], r[k])
  {
    assert forall k | 0 <= k < |ts| :: (ts + [t])[k] == ts[k];
    assert (ts + [t])[|ts|] == t;
  }

  // ---- definitions ----

  /** A text without the blanks, tabs and line ends behind it. */
  predicate Trimmed(t: string, r: string) {
    && r <= t
    && (forall i | |r| <= i < |t| :: t[i] == ' ' || t[i] == '\t' || t[i] == '\r' || t[i] == '\n')
    && (r != "" ==> r[|r| - 1] != ' ' && r[|r| - 1] != '\t' && r[|r| - 1] != '\r' && r[|r| - 1] != '\n')
  }

  lemma {:induction false} TrimEndIs(t: string)
    ensures Trimmed(t, TrimEnd(t))
    decreases |t|
  {
    if t != "" && t[|t| - 1] in " \t\r\n" {
      TrimEndIs(t[..|t| - 1]);
    }
  }

  /** Setting a variable: every name that agrees with it up to letter case then has the value, every other keeps its own.
      Behind 32 variables a new one is dropped. */
  lemma SetIs(vars: map<string, string>, name: string, value: string, other: string)
    requires |value| <= 127
    ensures Known(vars, name) || |vars| < 32 ==>
      GetVar(SetVar(vars, name, value), other) == if Agree(name, other) then value else GetVar(vars, other)
    ensures !Known(vars, name) && |vars| >= 32 ==> SetVar(vars, name, value) == vars
    ensures Known(SetVar(vars, name, value), other) <==> Known(vars, other) || (Agree(name, other) && |vars| < 32)
  {
    hide Upper, Agree;
    UpperIff(name, other);
    TakeIsFront(value, 127);
  }

  predicate Known(vars: map<string, string>, name: string) {
    Upper(name) in vars
  }

  /** A name that is not known stands for nothing, and names that agree stand for the same value and target. */
  lemma NamesAgree(vars: map<string, string>, ts: seq<Target>, a: string, b: string)
    ensures !Known(map[], a) && (!Known(vars, a) ==> GetVar(vars, a) == "")
    ensures Agree(a, b) ==> GetVar(vars, a) == GetVar(vars, b) && Find(ts, a) == Find(ts, b)
    ensures !Agree(a, b) && Find(ts, a) == Find(ts, b) ==> Find(ts, a) == |ts|
  {
    hide Upper, Agree, Find;
    UpperIff(a, b);
    if Upper(a) == Upper(b) {
      SameKey(ts, a, b);
    }
    FoundIs(ts, a);
    FoundIs(ts, b);
    var t := Find(ts, a);
    if t == Find(ts, b) && t < |ts| {
      UpperIff(ts[t].name, a);
      UpperIff(ts[t].name, b);
    }
  }

  lemma {:induction false} SameKey(ts: seq<Target>, a: string, b: string)
    requires Upper(a) == Upper(b)
    ensures Find(ts, a) == Find(ts, b)
  {
    hide Upper;
    if ts != [] {
      SameKey(ts[1..], a, b);
    }
  }

  /** No item defines a name that agrees with this one. */
  predicate Leaves(items: seq<Item>, name: string) {
    forall i | 0 <= i < |items| && items[i].Define? :: !Agree(items[i].name, name)
  }

  lemma {:induction false} LeavesValue(m: Makefile, items: seq<Item>, name: string)
    requires |m.targets| <= MAX_TARGETS && FormedAll(items, m.open, MAX_TARGETS - |m.targets|) && (m.open ==> m.targets != [])
    requires Leaves(items, name)
    ensures GetVar(ApplyAll(m, items).vars, name) == GetVar(m.vars, name)
    decreases |items|
  {
    hide FormedItem, Value, Take, Agree, TrimEnd, GetVar, SetVar, AddCommand, MarkPhony, Values;
    if items != [] {
      assert items[0].Define? ==> !Agree(items[0].name, name);
      DefineApplies(m, items[0], name);
      LeavesValue(Apply(m, items[0]), items[1..], name);
    }
  }

  lemma DefineApplies(m: Makefile, i: Item, name: string)
    requires (i.Recipe? ==> m.targets != []) && (i.Define? ==> !Agree(i.name, name))
    ensures GetVar(Apply(m, i).vars, name) == GetVar(m.vars, name)
  {
    hide Value, Values, Take, Agree, TrimEnd, GetVar, SetVar, AddCommand, MarkPhony;
    if i.Define? {
      var value := TrimEnd(Take(Value(m.vars, i.value), VALUE_MAX));
      CutShort(m.vars, i.value);
      SetIs(m.vars, i.name, value, name);
    }
  }

  lemma CutShort(vars: map<string, string>, r: Rich)
    ensures |TrimEnd(Take(Value(vars, r), VALUE_MAX))| <= 127
  {
    hide Value, TrimEnd;
    TrimEndIs(Take(Value(vars, r), VALUE_MAX));
  }

  /** A reference behind a definition, with no other of its name between, has the defined value: the value of the text at
      the definition, cut at 127 characters and trimmed at its end. */
  lemma LastDefinition(m: Makefile, define: Item, items: seq<Item>, name: string)
    requires |m.targets| <= MAX_TARGETS && (m.open ==> m.targets != [])
    requires define.Define? && FormedAll([define] + items, m.open, MAX_TARGETS - |m.targets|)
    requires Known(m.vars, define.name) || |m.vars| < 32
    requires Agree(define.name, name) && Leaves(items, name)
    ensures var r := Parse(m, PrintAll([define] + items));
      var text := Value(m.vars, define.value);
      r.Some? && Trimmed(if |text| <= 127 then text else text[..127], GetVar(r.value.vars, name))
  {
    hide FormedItem, Value, Take, Agree, TrimEnd, GetVar, SetVar, Parse, PrintAll, Trimmed, Known;
    var all := [define] + items;
    assert all[0] == define && all[1..] == items;
    ParsePrinted(m, all);
    var text := Value(m.vars, define.value);
    var cut := if |text| <= 127 then text else text[..127];
    assert Take(text, VALUE_MAX) == cut by { CutIs(text); }
    TrimEndIs(cut);
    CutShort(m.vars, define.value);
    SetIs(m.vars, define.name, TrimEnd(cut), name);
    LeavesValue(Apply(m, define), items, name);
  }

  lemma CutIs(text: string)
    ensures Take(text, VALUE_MAX) == if |text| <= 127 then text else text[..127]
  {
  }

  // ---- targets ----

  /** A name finds the first target that agrees with it up to letter case. */
  lemma {:induction false} FoundIs(ts: seq<Target>, name: string)
    ensures var t := Find(ts, name);
      && (t < |ts| ==> Agree(ts[t].name, name))
      && (forall j | 0 <= j < t :: !Agree(ts[j].name, name))
  {
    hide Upper, Agree;
    if ts != [] {
      UpperIff(ts[0].name, name);
      FoundIs(ts[1..], name);
      assert forall j | 0 < j < |ts| :: ts[j] == ts[1..][j - 1];
    }
  }

  /** A .PHONY line marks the first target that agrees with its name and changes nothing else. */
  lemma MarkIs(ts: seq<Target>, name: string, k: nat)
    requires k < |ts|
    ensures var r := MarkPhony(ts, name);
      && |r| == |ts| && SameTarget(ts[k], r[k])
      && (r[k].phony <==> ts[k].phony || (Agree(ts[k].name, name) && forall j | 0 <= j < k :: !Agree(ts[j].name, name)))
  {
    hide Agree, Find;
    FoundIs(ts, name);
  }

  /** The goal is the first target of the file whose name does not start with a dot. */
  lemma GoalIs(m: Makefile, name: string, deps: seq<Rich>)
    requires name != ""
    ensures Apply(m, Rule(name, deps)).goal == if m.targets == [] && name[0] != '.' then name else m.goal
  {
    hide Values;
  }

  // ---- lines ----

  /** A line is read whole exactly when it has at most 255 characters. */
  lemma {:induction false} LineIff(line: string, rest: string, room: nat)
    requires Lacks(line, "\n\r")
    ensures ReadLine(line + "\n" + rest, room)
         == if |line| <= room then (line, "\n" + rest) else (line[..room], line[room..] + "\n" + rest)
  {
    var t := line + "\n" + rest;
    if line == "" {
      assert t[0] == '\n' && t == "\n" + rest;
    } else if room > 0 {
      assert t[0] == line[0] && t[1..] == line[1..] + "\n" + rest;
      LineIff(line[1..], rest, room - 1);
      assert [line[0]] + line[1..] == line;
      assert |line| > room ==> [line[0]] + line[1..][..room - 1] == line[..room] && line[1..][room - 1..] == line[room..];
    } else {
      assert line[..0] == "" && line[0..] == line;
    }
  }

  /** A carriage return in front of the line end is dropped. */
  lemma {:induction false} ReturnDropped(line: string, rest: string, room: nat)
    requires Lacks(line, "\n\r") && |line| < room
    ensures ReadLine(line + "\r\n" + rest, room) == (line, "\n" + rest)
  {
    var t := line + "\r\n" + rest;
    if line == "" {
      assert t[0] == '\r' && t[1..] == "\n" + rest;
    } else {
      assert t[0] == line[0] && t[1..] == line[1..] + "\r\n" + rest;
      ReturnDropped(line[1..], rest, room - 1);
      assert [line[0]] + line[1..] == line;
    }
  }

  /** Of a longer line the first 255 characters are a line, the next one is dropped and the rest is the next line. */
  lemma LongLine(m: Makefile, line: string, rest: string)
    requires (m.open ==> m.targets != []) && Lacks(line, "\n\r") && |line| > 255
    ensures Parse(m, line + "\n" + rest) == match ParseLine(m, line[..255])
      case None => None
      case Some(next) => Parse(next, line[256..] + "\n" + rest)
  {
    hide ParseLine, ReadLine, Lacks;
    LineIff(line, rest, 255);
    assert line + "\n" + rest != "" && (line[255..] + "\n" + rest)[1..] == line[256..] + "\n" + rest;
  }

  /** A .PHONY line is one that starts with the word, its colon and any case of its letters. */
  lemma PhonyIff(line: string)
    ensures IsPhony(line) <==> |line| >= 7 && Agree(line[..7], ".PHONY:")
  {
    hide Upper, Agree;
    if |line| >= 7 {
      UpperIff(line[..7], ".PHONY:");
      PhonyWord();
    }
  }

  /** With 32 targets a further rule is passed over, and the recipe behind it goes to the last target there was. */
  lemma FullTable(m: Makefile, name: string, right: string)
    requires |m.targets| == 32 && name != "" && Lacks(name, " \t:=\n\r") && name[0] != '#'
    requires !Agree(name, ".PHONY")
    ensures ParseLine(m, name + (":" + right)) == Some(m)
  {
    hide Upper, Deps, IsPhony, SkipSpaces, Agree;
    UpperIff(name, ".PHONY");
    PhonySix();
    var line := name + (":" + right);
    NotPhony(name, ":" + right) by { assert Lacks(name, ":"); }
    SpanStop(name, ":" + right, "=:", |line|) by { assert Lacks(name, "=:"); }
    assert line[0] == name[0] && line[|name|] == ':';
  }

  lemma PhonySix()
    ensures Upper(".PHONY") == ".PHONY"
  {
  }

  /** A reference that is never closed is read to the end of the line as one that is. */
  lemma OpenReference(vars: map<string, string>, name: string, room: nat)
    requires ')' !in name && |name| <= 31
    ensures Expand(vars, "$(" + name, room) == Take(GetVar(vars, name), room)
  {
    hide GetVar, Span, Take;
    var src := "$(" + name;
    assert src[2..] == name && src[2..2 + |name|] == name && src[2 + |name|..] == "";
    SpanAll(name, ")", VAR_NAME_MAX);
    var value := Take(GetVar(vars, name), room);
    TakeIsFront(GetVar(vars, name), room);
    if room > 0 {
      assert Expand(vars, "", room - |value|) == "" && value + "" == value;
    }
  }
}
