/** Properties of a whole build: topological, each recipe once, fail-stop, complete, and finished
    exactly on acyclic rules. */
module MakeProof {
  import opened CText
  import opened MakeBuild

  // ---- order ----

  /** A path that comes back to one of its targets is a cycle. */
  lemma PathCycle(ts: seq<Target>, p: seq<nat>, i: nat)
    requires IsPath(ts, p) && 0 <= i < |p| - 1 && p[i] == p[|p| - 1]
    ensures Sustained(ts, set k | i < k < |p| :: p[k])
  {
    hide Edge;
    var c := set k | i < k < |p| :: p[k];
    forall t | t in c
      ensures exists d :: d in c && Edge(ts, t, d)
    {
      var k :| i < k < |p| && p[k] == t;
      var next := if k < |p| - 1 then k + 1 else i + 1;
      assert Edge(ts, p[next - 1], p[next]);
      assert p[next] in c;
    }
  }

  ghost predicate Untouched(p: seq<nat>, built: set<nat>) {
    forall i | 0 <= i < |p| :: p[i] !in built
  }

  /** p holds the unfinished targets on the call stack. */
  lemma {:induction false} BuildKeeps(ts: seq<Target>, run: Dispatch, depth: nat, name: string, st: Progress, p: seq<nat>)
    requires Topological(ts, st) && Untouched(p, st.built)
    requires Find(ts, name) < |ts| ==> IsPath(ts, p + [Find(ts, name)])
    ensures var (o, st') := Build(ts, run, depth, name, st);
      && Topological(ts, st') && st.order <= st'.order && Untouched(p, st'.built)
      && (o == OK ==> Find(ts, name) < |ts| && Find(ts, name) in st'.built)
    decreases depth, 0, 0
  {
    hide Find, BuildDeps, Recipe, Edge, Sustained, Topological, IsPath;
    var t := Find(ts, name);
    if t < |ts| && t !in st.built && depth > 0 {
      var deps := ts[t].deps;
      DepsOnPath(ts, p, t);
      DepsKeep(ts, run, depth - 1, deps, st, p + [t]);
      var (o, st1) := BuildDeps(ts, run, depth - 1, deps, st);
      assert (p + [t])[|p|] == t;
      assert forall i | 0 <= i < |p| :: (p + [t])[i] == p[i];
      if o == OK {
        RecipeMarks(run, t, ts[t].cmds, st1);
        AppendTopological(ts, run, t, st1);
        if t in p && Recipe(run, t, ts[t].cmds, st1).0 == OK {
          NoneOnStack(ts, run, depth, name, st, p);
        }
      }
    }
  }

  lemma NoneOnStack(ts: seq<Target>, run: Dispatch, depth: nat, name: string, st: Progress, p: seq<nat>)
    requires Find(ts, name) < |ts| && IsPath(ts, p + [Find(ts, name)]) && Untouched(p, st.built)
    requires Find(ts, name) in p
    ensures Build(ts, run, depth, name, st).0 != OK
  {
    hide Find, Build, Edge, Sustained, IsPath;
    var t := Find(ts, name);
    var i :| 0 <= i < |p| && p[i] == t;
    var q := p + [t];
    PathCycle(ts, q, i);
    var c := set k | i < k < |q| :: q[k];
    assert q[|p|] in c;
    assert c !! st.built;
    CycleNotDone(ts, run, depth, name, st, c);
  }

  lemma DepsOnPath(ts: seq<Target>, p: seq<nat>, t: nat)
    requires t < |ts| && IsPath(ts, p + [t])
    ensures forall i | 0 <= i < |ts[t].deps| && Find(ts, ts[t].deps[i]) < |ts| ::
      IsPath(ts, p + [t] + [Find(ts, ts[t].deps[i])])
  {
    hide Find;
    forall i | 0 <= i < |ts[t].deps| && Find(ts, ts[t].deps[i]) < |ts|
      ensures IsPath(ts, p + [t] + [Find(ts, ts[t].deps[i])])
    {
      var d := Find(ts, ts[t].deps[i]);
      assert Edge(ts, t, d);
      PathGrows(ts, p + [t], d);
    }
  }

  lemma PathGrows(ts: seq<Target>, p: seq<nat>, d: nat)
    requires IsPath(ts, p) && p != [] && Edge(ts, p[|p| - 1], d)
    ensures IsPath(ts, p + [d])
  {
    hide Edge;
    EdgeInside(ts, p[|p| - 1], d);
    var q := p + [d];
    forall i | 0 < i < |q|
      ensures Edge(ts, q[i - 1], q[i])
    {
      if i < |p| {
        assert q[i - 1] == p[i - 1] && q[i] == p[i];
      }
    }
  }

  /** Marking a target whose dependencies are built keeps the order topological. */
  lemma AppendTopological(ts: seq<Target>, run: Dispatch, t: nat, st: Progress)
    requires Topological(ts, st) && t < |ts| && t !in st.built
    requires forall i | 0 <= i < |ts[t].deps| && Find(ts, ts[t].deps[i]) < |ts| :: Find(ts, ts[t].deps[i]) in st.built
    ensures var (o, st') := Recipe(run, t, ts[t].cmds, st); Topological(ts, st')
  {
    hide Find, RunAll;
    var (o, st') := Recipe(run, t, ts[t].cmds, st);
    if o == OK {
      var order := st'.order;
      forall k, d | 0 <= k < |order| && Edge(ts, order[k], d)
        ensures d in order[..k]
      {
        if k < |st.order| {
          assert order[..k] == st.order[..k] && order[k] == st.order[k];
        } else {
          assert order[..k] == st.order;
        }
      }
    }
  }

  lemma {:induction false} DepsKeep(ts: seq<Target>, run: Dispatch, depth: nat, deps: seq<string>, st: Progress, p: seq<nat>)
    requires Topological(ts, st) && Untouched(p, st.built)
    requires forall i | 0 <= i < |deps| && Find(ts, deps[i]) < |ts| :: IsPath(ts, p + [Find(ts, deps[i])])
    ensures var (o, st') := BuildDeps(ts, run, depth, deps, st);
      && Topological(ts, st') && st.order <= st'.order && Untouched(p, st'.built)
      && (o == OK ==> forall i | 0 <= i < |deps| && Find(ts, deps[i]) < |ts| :: Find(ts, deps[i]) in st'.built)
    decreases depth, 1, |deps|
  {
    hide Find, Build, Topological, IsPath;
    if deps != [] {
      assert forall i | 0 < i < |deps| :: deps[i] == deps[1..][i - 1];
      if Find(ts, deps[0]) == |ts| {
        DepsKeep(ts, run, depth, deps[1..], st, p);
      } else {
        BuildKeeps(ts, run, depth, deps[0], st, p);
        var (o, st1) := Build(ts, run, depth, deps[0], st);
        if o == OK {
          DepsKeep(ts, run, depth, deps[1..], st1, p);
          BuiltGrows(ts, st1, BuildDeps(ts, run, depth, deps[1..], st1).1);
        }
      }
    }
  }

  lemma BuiltGrows(ts: seq<Target>, st: Progress, st': Progress)
    requires Topological(ts, st) && Topological(ts, st') && st.order <= st'.order
    ensures st.built <= st'.built
  {
    hide Edge;
    forall t | t in st.built
      ensures t in st'.built
    {
      var i :| 0 <= i < |st.order| && st.order[i] == t;
      assert st'.order[i] == t;
    }
  }

  lemma TopologicalClosed(ts: seq<Target>, st: Progress)
    requires Topological(ts, st)
    ensures Closed(ts, st.built)
  {
    hide Edge;
    forall t, d | t in st.built && Edge(ts, t, d)
      ensures d in st.built
    {
      var k :| 0 <= k < |st.order| && st.order[k] == t;
      assert d in st.order[..k];
    }
  }

  // ---- reachability ----

  ghost predicate Reachable(ts: seq<Target>, goal: nat, t: nat) {
    exists p: seq<nat> :: p != [] && IsPath(ts, p) && p[0] == goal && p[|p| - 1] == t
  }

  /** The known targets reachable from the goal through known dependencies. */
  ghost function Reach(ts: seq<Target>, goal: nat): (r: set<nat>)
    ensures forall t: nat :: t in r <==> t < |ts| && Reachable(ts, goal, t)
  {
    set t: nat | t < |ts| && Reachable(ts, goal, t)
  }

  lemma ReachClosed(ts: seq<Target>, goal: nat)
    requires goal < |ts|
    ensures goal in Reach(ts, goal) && Closed(ts, Reach(ts, goal))
  {
    hide Edge, Find;
    assert IsPath(ts, [goal]);
    assert [goal][0] == goal;
    forall t: nat, d: nat | t in Reach(ts, goal) && Edge(ts, t, d)
      ensures d in Reach(ts, goal)
    {
      var p :| p != [] && IsPath(ts, p) && p[0] == goal && p[|p| - 1] == t;
      PathGrows(ts, p, d);
      assert (p + [d])[0] == goal && (p + [d])[|p|] == d;
      EdgeInside(ts, t, d);
    }
  }

  lemma EdgeInside(ts: seq<Target>, t: nat, d: nat)
    requires Edge(ts, t, d)
    ensures t < |ts| && d < |ts|
  {
  }

  lemma {:induction false} PathInClosed(ts: seq<Target>, p: seq<nat>, r: set<nat>)
    requires p != [] && IsPath(ts, p) && p[0] in r && Closed(ts, r)
    ensures p[|p| - 1] in r
    decreases |p|
  {
    hide Edge;
    if |p| > 1 {
      var q := p[..|p| - 1];
      assert forall i | 0 < i < |q| :: Edge(ts, p[i - 1], p[i]);
      PathInClosed(ts, q, r);
      assert Edge(ts, p[|p| - 2], p[|p| - 1]);
    }
  }

  lemma ReachLeast(ts: seq<Target>, goal: nat, r: set<nat>)
    requires goal in r && Closed(ts, r)
    ensures Reach(ts, goal) <= r
  {
    hide Edge, Closed;
    forall t | t in Reach(ts, goal)
      ensures t in r
    {
      var p :| p != [] && IsPath(ts, p) && p[0] == goal && p[|p| - 1] == t;
      PathInClosed(ts, p, r);
    }
  }

  /** A build touches nothing outside a dependency-closed set that holds its goal. */
  lemma {:induction false} BuildStaysInside(ts: seq<Target>, run: Dispatch, depth: nat, name: string, st: Progress, r: set<nat>)
    requires Closed(ts, r) && (Find(ts, name) < |ts| ==> Find(ts, name) in r) && st.built <= r
    ensures Build(ts, run, depth, name, st).1.built <= r
    decreases depth, 0, 0
  {
    hide Find, BuildDeps, Recipe, Edge, Closed;
    var t := Find(ts, name);
    if t < |ts| && t !in st.built && depth > 0 {
      DepsInside(ts, t, r);
      DepsStayInside(ts, run, depth - 1, ts[t].deps, st, r);
      RecipeMarks(run, t, ts[t].cmds, BuildDeps(ts, run, depth - 1, ts[t].deps, st).1);
    }
  }

  lemma DepsInside(ts: seq<Target>, t: nat, r: set<nat>)
    requires t < |ts| && t in r && Closed(ts, r)
    ensures forall i | 0 <= i < |ts[t].deps| && Find(ts, ts[t].deps[i]) < |ts| :: Find(ts, ts[t].deps[i]) in r
  {
    hide Find;
    forall i | 0 <= i < |ts[t].deps| && Find(ts, ts[t].deps[i]) < |ts|
      ensures Find(ts, ts[t].deps[i]) in r
    {
      assert Edge(ts, t, Find(ts, ts[t].deps[i]));
    }
  }

  lemma {:induction false} DepsStayInside(ts: seq<Target>, run: Dispatch, depth: nat, deps: seq<string>, st: Progress, r: set<nat>)
    requires Closed(ts, r) && st.built <= r
    requires forall i | 0 <= i < |deps| && Find(ts, deps[i]) < |ts| :: Find(ts, deps[i]) in r
    ensures BuildDeps(ts, run, depth, deps, st).1.built <= r
    decreases depth, 1, |deps|
  {
    hide Find, Build, Closed;
    if deps != [] {
      assert forall i | 0 < i < |deps| :: deps[i] == deps[1..][i - 1];
      if Find(ts, deps[0]) == |ts| {
        DepsStayInside(ts, run, depth, deps[1..], st, r);
      } else {
        BuildStaysInside(ts, run, depth, deps[0], st, r);
        var (o, st1) := Build(ts, run, depth, deps[0], st);
        if o == OK {
          DepsStayInside(ts, run, depth, deps[1..], st1, r);
        }
      }
    }
  }

  // ---- termination ----

  lemma {:induction false} DistinctFits(p: seq<nat>, r: set<nat>)
    requires forall i | 0 <= i < |p| :: p[i] in r
    requires forall i, j | 0 <= i < j < |p| :: p[i] != p[j]
    ensures |p| <= |r|
  {
    if p != [] {
      var last := p[|p| - 1];
      DistinctFits(p[..|p| - 1], r - {last});
    }
  }

  /** In an acyclic set a path is no longer than the set. */
  lemma AcyclicPathFits(ts: seq<Target>, p: seq<nat>, r: set<nat>)
    requires IsPath(ts, p) && Acyclic(ts, r) && forall i | 0 <= i < |p| :: p[i] in r
    ensures |p| <= |r|
  {
    hide Edge, Sustained;
    forall i, j | 0 <= i < j < |p|
      ensures p[i] != p[j]
    {
      if p[i] == p[j] {
        var q := p[..j + 1];
        assert IsPath(ts, q) by {
          assert forall k | 0 < k < |q| :: Edge(ts, p[k - 1], p[k]);
        }
        var c := set k | i < k < |q| :: q[k];
        assert q[j] in c && c <= r;
        PathCycle(ts, q, i);
      }
    }
    DistinctFits(p, r);
  }

  lemma {:induction false} AcyclicEnds(ts: seq<Target>, run: Dispatch, depth: nat, name: string, st: Progress,
                                       p: seq<nat>, r: set<nat>)
    requires Closed(ts, r) && Acyclic(ts, r) && forall i | 0 <= i < |p| :: p[i] in r
    requires Find(ts, name) < |ts| ==> Find(ts, name) in r && IsPath(ts, p + [Find(ts, name)])
    requires depth + |p| >= |r|
    ensures Build(ts, run, depth, name, st).0 != Overflow
    decreases depth, 0, 0
  {
    hide Find, BuildDeps, Recipe, Edge, Closed, Acyclic, IsPath;
    var t := Find(ts, name);
    if t < |ts| && t !in st.built {
      AcyclicPathFits(ts, p + [t], r);
      DepsInside(ts, t, r);
      DepsOnPath(ts, p, t);
      AcyclicDepsEnd(ts, run, depth - 1, ts[t].deps, st, p + [t], r);
      RecipeMarks(run, t, ts[t].cmds, BuildDeps(ts, run, depth - 1, ts[t].deps, st).1);
    }
  }

  lemma {:induction false} AcyclicDepsEnd(ts: seq<Target>, run: Dispatch, depth: nat, deps: seq<string>, st: Progress,
                                          p: seq<nat>, r: set<nat>)
    requires Closed(ts, r) && Acyclic(ts, r) && forall i | 0 <= i < |p| :: p[i] in r
    requires forall i | 0 <= i < |deps| && Find(ts, deps[i]) < |ts| ::
      Find(ts, deps[i]) in r && IsPath(ts, p + [Find(ts, deps[i])])
    requires depth + |p| >= |r|
    ensures BuildDeps(ts, run, depth, deps, st).0 != Overflow
    decreases depth, 1, |deps|
  {
    hide Find, Build, Closed, Acyclic, IsPath;
    if deps != [] {
      assert forall i | 0 < i < |deps| :: deps[i] == deps[1..][i - 1];
      if Find(ts, deps[0]) == |ts| {
        AcyclicDepsEnd(ts, run, depth, deps[1..], st, p, r);
      } else {
        AcyclicEnds(ts, run, depth, deps[0], st, p, r);
        var (o, st1) := Build(ts, run, depth, deps[0], st);
        if o == OK {
          AcyclicDepsEnd(ts, run, depth, deps[1..], st1, p, r);
        }
      }
    }
  }

  // ---- commands ----

  function Commands(cmds: seq<string>): (r: seq<string>)
    ensures |r| == |cmds|
  {
    if cmds == [] then [] else [Unsilenced(cmds[0])] + Commands(cmds[1..])
  }

  /** The recipes of these targets, one after the other. */
  function Recipes(ts: seq<Target>, order: seq<nat>): seq<string>
    requires forall k | 0 <= k < |order| :: order[k] < |ts|
  {
    if order == [] then []
    else Commands(ts[order[0]].cmds) + Recipes(ts, order[1..])
  }

  predicate Accepts(run: Dispatch, history: seq<string>, i: nat)
    requires i < |history|
  {
    run(history[..i], history[i]) == 0 || run(history[..i], history[i]) == NOT_FOUND
  }

  /** Every command from the given point on was accepted. */
  ghost predicate Accepted(run: Dispatch, from: nat, history: seq<string>) {
    from <= |history| && forall i | from <= i < |history| :: Accepts(run, history, i)
  }

  /** A recipe ran up to its command number k, which was refused with this code. */
  ghost predicate Refused(run: Dispatch, before: seq<string>, cmds: seq<string>, k: nat, rc: int, history: seq<string>) {
    && k < |cmds| && rc != 0 && rc != NOT_FOUND
    && var ran, last := before + Commands(cmds)[..k], Commands(cmds)[k];
    && history == ran + [last] && Accepted(run, |before|, ran) && run(ran, last) == rc
  }

  lemma {:induction false} RunAllRuns(run: Dispatch, cmds: seq<string>, history: seq<string>)
    ensures var (rc, h) := RunAll(run, cmds, history);
      && (rc == 0 ==> h == history + Commands(cmds) && Accepted(run, |history|, h))
      && (rc != 0 ==> exists k :: Refused(run, history, cmds, k, rc, h))
  {
    if cmds != [] {
      var cmd := Unsilenced(cmds[0]);
      var next := history + [cmd];
      var rc0 := run(history, cmd);
      assert next[..|history|] == history;
      if rc0 != 0 && rc0 != NOT_FOUND {
        assert history + Commands(cmds)[..0] == history;
        assert Refused(run, history, cmds, 0, rc0, next);
      } else {
        RunAllRuns(run, cmds[1..], next);
        var (rc, h) := RunAll(run, cmds[1..], next);
        if rc == 0 {
          assert h == history + Commands(cmds);
          AcceptedMore(run, history, cmd, h);
        } else {
          var k :| Refused(run, next, cmds[1..], k, rc, h);
          RefusedMore(run, history, cmds, k, rc, h);
        }
      }
    }
  }

  lemma AcceptedMore(run: Dispatch, history: seq<string>, cmd: string, h: seq<string>)
    requires history + [cmd] <= h && Accepted(run, |history| + 1, h)
    requires run(history, cmd) == 0 || run(history, cmd) == NOT_FOUND
    ensures Accepted(run, |history|, h)
  {
    assert h[..|history|] == history && h[|history|] == cmd;
  }

  lemma RefusedMore(run: Dispatch, history: seq<string>, cmds: seq<string>, k: nat, rc: int, h: seq<string>)
    requires cmds != []
    requires Refused(run, history + [Unsilenced(cmds[0])], cmds[1..], k, rc, h)
    requires var r := run(history, Unsilenced(cmds[0])); r == 0 || r == NOT_FOUND
    ensures Refused(run, history, cmds, k + 1, rc, h)
  {
    hide Accepted, Unsilenced;
    var cmd := Unsilenced(cmds[0]);
    var all := [cmd] + Commands(cmds[1..]);
    assert Commands(cmds) == all;
    assert all[..k + 1] == [cmd] + Commands(cmds[1..])[..k];
    var ran := history + all[..k + 1];
    assert ran == history + [cmd] + Commands(cmds[1..])[..k];
    AcceptedMore(run, history, cmd, ran);
  }

  /** What a build ran: the recipes of the targets it marked, in that order, every command accepted;
      then, if it failed on a command, the recipe of one unmarked target up to that command. */
  ghost predicate Ran(ts: seq<Target>, run: Dispatch, st: Progress, o: Outcome, st': Progress) {
    && st.order <= st'.order && (forall k | 0 <= k < |st'.order| :: st'.order[k] < |ts|)
    && var finished := st.history + Recipes(ts, st'.order[|st.order|..]);
    && Accepted(run, |st.history|, finished)
    && (o == OK || o == Overflow ==> st'.history == finished)
    && (o.Done? && o.rc != 0 ==>
        exists t: nat, k: nat :: t < |ts| && t !in st'.built && Refused(run, finished, ts[t].cmds, k, o.rc, st'.history))
  }

  lemma {:induction false} RecipesJoin(ts: seq<Target>, a: seq<nat>, b: seq<nat>)
    requires (forall k | 0 <= k < |a| :: a[k] < |ts|) && (forall k | 0 <= k < |b| :: b[k] < |ts|)
    ensures forall k | 0 <= k < |a + b| :: (a + b)[k] < |ts|
    ensures Recipes(ts, a + b) == Recipes(ts, a) + Recipes(ts, b)
  {
    if a == [] {
      assert a + b == b;
    } else {
      assert (a + b)[1..] == a[1..] + b;
      RecipesJoin(ts, a[1..], b);
    }
  }

  lemma AcceptedJoin(run: Dispatch, from: nat, a: seq<string>, b: seq<string>)
    requires Accepted(run, from, a) && a <= b && Accepted(run, |a|, b)
    ensures Accepted(run, from, b)
  {
    forall i | from <= i < |b|
      ensures Accepts(run, b, i)
    {
      if i < |a| {
        assert b[..i] == a[..i] && b[i] == a[i];
        assert Accepts(run, a, i);
      }
    }
  }

  lemma RanNothing(ts: seq<Target>, run: Dispatch, st: Progress, o: Outcome)
    requires Topological(ts, st) && (o == OK || o == Overflow)
    ensures Ran(ts, run, st, o, st)
  {
    hide Edge;
    assert st.order[|st.order|..] == [];
    assert st.history + [] == st.history;
  }

  lemma RanJoin(ts: seq<Target>, run: Dispatch, st: Progress, st1: Progress, o: Outcome, st2: Progress)
    requires Ran(ts, run, st, OK, st1) && Ran(ts, run, st1, o, st2)
    ensures Ran(ts, run, st, o, st2)
  {
    hide Refused, Accepted, Recipes;
    var a, b := st1.order[|st.order|..], st2.order[|st1.order|..];
    assert st2.order[|st.order|..] == a + b;
    RecipesJoin(ts, a, b);
    var finished := st1.history + Recipes(ts, b);
    assert st.history + Recipes(ts, a + b) == finished;
    AcceptedJoin(run, |st.history|, st1.history, finished);
  }

  lemma RecipeRan(ts: seq<Target>, run: Dispatch, t: nat, st: Progress)
    requires Topological(ts, st) && t < |ts| && t !in st.built
    ensures var (o, st') := Recipe(run, t, ts[t].cmds, st); Ran(ts, run, st, o, st')
  {
    hide Edge, RunAll, Accepted, Refused, Commands;
    RunAllRuns(run, ts[t].cmds, st.history);
    var (o, st') := Recipe(run, t, ts[t].cmds, st);
    if o == OK {
      assert st'.order[|st.order|..] == [t];
      assert Recipes(ts, [t]) == Commands(ts[t].cmds) + [] == Commands(ts[t].cmds);
    } else {
      RanNothing(ts, run, st, OK);
      assert st.order[|st.order|..] == [] && st.history + [] == st.history;
      var k :| Refused(run, st.history, ts[t].cmds, k, o.rc, st'.history);
    }
  }

  /** Untouched(p): as for the order. The goal is a known target. */
  lemma {:induction false} BuildRan(ts: seq<Target>, run: Dispatch, depth: nat, name: string, st: Progress, p: seq<nat>)
    requires Topological(ts, st) && Untouched(p, st.built)
    requires Find(ts, name) < |ts| && IsPath(ts, p + [Find(ts, name)])
    ensures var (o, st') := Build(ts, run, depth, name, st); Ran(ts, run, st, o, st')
    decreases depth, 0, 0
  {
    hide Find, BuildDeps, Recipe, Edge, Topological, IsPath, Ran;
    var t := Find(ts, name);
    if t !in st.built && depth > 0 {
      var deps := ts[t].deps;
      DepsOnPath(ts, p, t);
      assert (p + [t])[|p|] == t;
      assert forall i | 0 <= i < |p| :: (p + [t])[i] == p[i];
      DepsKeep(ts, run, depth - 1, deps, st, p + [t]);
      DepsRan(ts, run, depth - 1, deps, st, p + [t]);
      var (o, st1) := BuildDeps(ts, run, depth - 1, deps, st);
      if o == OK {
        RecipeRan(ts, run, t, st1);
        var (o2, st2) := Recipe(run, t, ts[t].cmds, st1);
        RanJoin(ts, run, st, st1, o2, st2);
      }
    } else {
      RanNothing(ts, run, st, Build(ts, run, depth, name, st).0);
    }
  }

  lemma {:induction false} DepsRan(ts: seq<Target>, run: Dispatch, depth: nat, deps: seq<string>, st: Progress, p: seq<nat>)
    requires Topological(ts, st) && Untouched(p, st.built)
    requires forall i | 0 <= i < |deps| && Find(ts, deps[i]) < |ts| :: IsPath(ts, p + [Find(ts, deps[i])])
    ensures var (o, st') := BuildDeps(ts, run, depth, deps, st); Ran(ts, run, st, o, st')
    decreases depth, 1, |deps|
  {
    hide Find, Build, Topological, IsPath, Ran;
    if deps == [] {
      RanNothing(ts, run, st, OK);
    } else {
      assert forall i | 0 < i < |deps| :: deps[i] == deps[1..][i - 1];
      if Find(ts, deps[0]) == |ts| {
        DepsRan(ts, run, depth, deps[1..], st, p);
      } else {
        BuildKeeps(ts, run, depth, deps[0], st, p) by { FindInside(ts, deps[0]); }
        BuildRan(ts, run, depth, deps[0], st, p) by { FindInside(ts, deps[0]); }
        var (o, st1) := Build(ts, run, depth, deps[0], st);
        if o == OK {
          DepsRan(ts, run, depth, deps[1..], st1, p);
          var (o2, st2) := BuildDeps(ts, run, depth, deps[1..], st1);
          RanJoin(ts, run, st, st1, o2, st2);
        }
      }
    }
  }

  lemma FindInside(ts: seq<Target>, name: string)
    ensures Find(ts, name) <= |ts|
  {
  }

  // ---- the main results ----

  const FRESH := Progress({}, [], [])

  lemma FreshTopological(ts: seq<Target>)
    ensures Topological(ts, FRESH)
  {
  }

  /** Whatever happens, what is marked is in topological order with each target once, and the commands
      run are exactly those recipes plus, on a failure, the failing recipe up to the refused command. */
  lemma EveryBuild(ts: seq<Target>, run: Dispatch, depth: nat, name: string)
    requires Find(ts, name) < |ts|
    ensures var (o, st') := Build(ts, run, depth, name, FRESH);
      && Topological(ts, st') && Closed(ts, st'.built) && Ran(ts, run, FRESH, o, st')
      && st'.built <= Reach(ts, Find(ts, name))
  {
    hide Find, Build, Edge, Topological, Ran, Closed;
    var t := Find(ts, name);
    FreshTopological(ts);
    assert IsPath(ts, [] + [t]);
    BuildKeeps(ts, run, depth, name, FRESH, []);
    BuildRan(ts, run, depth, name, FRESH, []);
    TopologicalClosed(ts, Build(ts, run, depth, name, FRESH).1);
    ReachClosed(ts, t);
    BuildStaysInside(ts, run, depth, name, FRESH, Reach(ts, t));
  }

  /** A build that returns 0 built exactly what the goal reaches, and that part is acyclic. */
  lemma SuccessfulBuild(ts: seq<Target>, run: Dispatch, depth: nat, name: string)
    requires Build(ts, run, depth, name, FRESH).0 == OK
    ensures var st' := Build(ts, run, depth, name, FRESH).1;
      && Find(ts, name) < |ts|
      && st'.built == Reach(ts, Find(ts, name)) && Acyclic(ts, st'.built)
  {
    hide Find, Edge, Topological, Closed, Sustained, BuildDeps, Recipe;
    var st' := Build(ts, run, depth, name, FRESH).1;
    var t := Find(ts, name);
    assert t < |ts| by { FindInside(ts, name); }
    assert t in st'.built && Topological(ts, st') by {
      FreshTopological(ts);
      assert IsPath(ts, [] + [t]);
      BuildKeeps(ts, run, depth, name, FRESH, []);
    }
    EveryBuild(ts, run, depth, name);
    ReachLeast(ts, t, st'.built);
    forall c | c <= st'.built && Sustained(ts, c)
      ensures c == {}
    {
      CycleNotDone(ts, run, depth, name, FRESH, c);
    }
  }

  /** On acyclic rules the call stack never holds more unfinished targets than the goal reaches; on
      cyclic ones no stack is enough for success. */
  lemma EndsIffAcyclic(ts: seq<Target>, run: Dispatch, name: string)
    requires Find(ts, name) < |ts|
    requires forall h, c :: run(h, c) == 0 || run(h, c) == NOT_FOUND
    ensures var r := Reach(ts, Find(ts, name));
      && (Acyclic(ts, r) ==> forall depth: nat | depth >= |r| :: Build(ts, run, depth, name, FRESH).0 == OK)
      && (!Acyclic(ts, r) ==> forall depth: nat :: Build(ts, run, depth, name, FRESH).0 == Overflow)
  {
    hide Find, Edge, Acyclic, Build, Topological, Closed;
    var t := Find(ts, name);
    var r := Reach(ts, t);
    ReachClosed(ts, t);
    forall depth: nat
      ensures depth >= |r| && Acyclic(ts, r) ==> Build(ts, run, depth, name, FRESH).0 == OK
      ensures !Acyclic(ts, r) ==> Build(ts, run, depth, name, FRESH).0 == Overflow
    {
      if Acyclic(ts, r) && depth >= |r| {
        AcyclicBuildEnds(ts, run, depth, name);
      }
      var (o, st') := Build(ts, run, depth, name, FRESH);
      NeverRefused(ts, run, depth, name);
      if o == OK {
        SuccessfulBuild(ts, run, depth, name);
      }
    }
  }

  /** With any command results, a build of acyclic rules ends within that stack. */
  lemma AcyclicBuildEnds(ts: seq<Target>, run: Dispatch, depth: nat, name: string)
    requires Find(ts, name) < |ts| && Acyclic(ts, Reach(ts, Find(ts, name)))
    requires depth >= |Reach(ts, Find(ts, name))|
    ensures Build(ts, run, depth, name, FRESH).0 != Overflow
  {
    hide Find, Edge, Acyclic, Build, Closed;
    var t := Find(ts, name);
    ReachClosed(ts, t);
    assert IsPath(ts, [] + [t]);
    AcyclicEnds(ts, run, depth, name, FRESH, [], Reach(ts, t));
  }

  lemma NeverRefused(ts: seq<Target>, run: Dispatch, depth: nat, name: string)
    requires Find(ts, name) < |ts|
    requires forall h, c :: run(h, c) == 0 || run(h, c) == NOT_FOUND
    ensures var o := Build(ts, run, depth, name, FRESH).0; o == OK || o == Overflow
  {
    hide Find, Edge, Build, Topological, Closed, Accepted, Refused;
    EveryBuild(ts, run, depth, name);
    forall before, cmds, k, rc, h
      ensures !Refused(run, before, cmds, k, rc, h)
    {
      RefusedNeedsRefusal(run, before, cmds, k, rc, h);
    }
  }

  lemma RefusedNeedsRefusal(run: Dispatch, before: seq<string>, cmds: seq<string>, k: nat, rc: int, h: seq<string>)
    requires forall h, c :: run(h, c) == 0 || run(h, c) == NOT_FOUND
    ensures !Refused(run, before, cmds, k, rc, h)
  {
  }
}
