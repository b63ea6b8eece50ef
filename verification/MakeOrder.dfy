/** The order of a build beyond its dependencies: those listed first come first; and what the shell is given. */
module MakeOrder {
  import opened CText
  import opened TextFacts
  import opened MakeBuild
  import opened MakeProof
  import opened MakeMeaning

  /** a comes in the order before b does. */
  predicate DoneBefore(order: seq<nat>, a: nat, b: nat) {
    exists n :: 0 <= n <= |order| && Between(order, n, a, b)
  }

  predicate Between(order: seq<nat>, n: nat, a: nat, b: nat)
    requires n <= |order|
  {
    a in order[..n] && b !in order[..n]
  }

  lemma LongerOrder(order: seq<nat>, more: seq<nat>, a: nat, b: nat)
    requires DoneBefore(order, a, b) && order <= more
    ensures DoneBefore(more, a, b)
  {
    var n :| 0 <= n <= |order| && Between(order, n, a, b);
    assert more[..n] == order[..n];
    assert Between(more, n, a, b);
  }

  /** What is marked now and inside a set without b comes before b. */
  lemma MarkedFirst(ts: seq<Target>, st: Progress, a: nat, b: nat, r: set<nat>)
    requires Topological(ts, st) && a in st.built && st.built <= r && b !in r
    ensures DoneBefore(st.order, a, b)
  {
    hide Edge;
    var n := |st.order|;
    assert st.order[..n] == st.order;
    assert Between(st.order, n, a, b);
  }

  /** p: as for the order. Every dependency up to number i stays inside r. */
  lemma {:induction false} DepsOrdered(ts: seq<Target>, run: Dispatch, depth: nat, deps: seq<string>, st: Progress, p: seq<nat>,
                                       i: nat, r: set<nat>, b: nat)
    requires Topological(ts, st) && Untouched(p, st.built)
    requires forall k | 0 <= k < |deps| && Find(ts, deps[k]) < |ts| :: IsPath(ts, p + [Find(ts, deps[k])])
    requires i < |deps| && Find(ts, deps[i]) < |ts|
    requires forall k | 0 <= k <= i && Find(ts, deps[k]) < |ts| :: Find(ts, deps[k]) in r
    requires Closed(ts, r) && st.built <= r && b !in r
    requires BuildDeps(ts, run, depth, deps, st).0 == OK
    ensures DoneBefore(BuildDeps(ts, run, depth, deps, st).1.order, Find(ts, deps[i]), b)
    decreases |deps|
  {
    hide Find, Build, Topological, IsPath, Untouched, Closed, DoneBefore;
    var rest := deps[1..];
    assert forall k | 0 < k < |deps| :: deps[k] == rest[k - 1];
    if Find(ts, deps[0]) == |ts| {
      DepsOrdered(ts, run, depth, rest, st, p, i - 1, r, b);
    } else {
      FindInside(ts, deps[0]);
      var (o, st1) := Build(ts, run, depth, deps[0], st);
      BuildKeeps(ts, run, depth, deps[0], st, p);
      BuildStaysInside(ts, run, depth, deps[0], st, r);
      if i > 0 {
        DepsOrdered(ts, run, depth, rest, st1, p, i - 1, r, b);
      } else {
        MarkedFirst(ts, st1, Find(ts, deps[0]), b, r);
        DepsKeep(ts, run, depth, rest, st1, p);
        LongerOrder(st1.order, BuildDeps(ts, run, depth, rest, st1).1.order, Find(ts, deps[0]), b);
      }
    }
  }

  /** The targets that the first n of these dependencies need, themselves included. */
  ghost function Needed(ts: seq<Target>, deps: seq<string>, n: nat): (r: set<nat>)
    requires n <= |deps|
    ensures forall t: nat :: t in r <==> t < |ts| && OneNeeds(ts, deps[..n], t)
  {
    set t: nat | t < |ts| && OneNeeds(ts, deps[..n], t)
  }

  ghost predicate OneNeeds(ts: seq<Target>, deps: seq<string>, t: nat) {
    exists k :: 0 <= k < |deps| && NeededBy(ts, deps[k], t)
  }

  ghost predicate NeededBy(ts: seq<Target>, dep: string, t: nat) {
    Find(ts, dep) < |ts| && t in Reach(ts, Find(ts, dep))
  }

  lemma NeededClosed(ts: seq<Target>, deps: seq<string>, n: nat)
    requires n <= |deps|
    ensures Closed(ts, Needed(ts, deps, n))
    ensures forall k | 0 <= k < n && Find(ts, deps[k]) < |ts| :: Find(ts, deps[k]) in Needed(ts, deps, n)
  {
    hide Find, Edge, Reachable;
    var r := Needed(ts, deps, n);
    forall t: nat, d: nat | t in r && Edge(ts, t, d)
      ensures d in r
    {
      var k :| 0 <= k < n && NeededBy(ts, deps[..n][k], t);
      ReachClosed(ts, Find(ts, deps[k]));
      EdgeInside(ts, t, d);
      assert NeededBy(ts, deps[..n][k], d);
    }
    forall k | 0 <= k < n && Find(ts, deps[k]) < |ts|
      ensures Find(ts, deps[k]) in r
    {
      ReachClosed(ts, Find(ts, deps[k]));
      assert NeededBy(ts, deps[..n][k], Find(ts, deps[k]));
    }
  }

  /** The dependencies of the goal are built in the order they are listed: number i comes before any target that it and
      those listed ahead of it do not need. */
  lemma ListedOrder(ts: seq<Target>, run: Dispatch, depth: nat, name: string, i: nat, b: nat)
    requires Find(ts, name) < |ts| && Build(ts, run, depth, name, FRESH).0 == OK
    requires var deps := ts[Find(ts, name)].deps;
      i < |deps| && Find(ts, deps[i]) < |ts| && b !in Needed(ts, deps, i + 1)
    ensures DoneBefore(Build(ts, run, depth, name, FRESH).1.order, Find(ts, ts[Find(ts, name)].deps[i]), b)
  {
    hide *;
    var t := Find(ts, name);
    GoalParts(ts, run, depth, name);
    DepsOfGoal(ts, run, depth - 1, t, i, b);
    LongerOrder(BuildDeps(ts, run, depth - 1, ts[t].deps, FRESH).1.order, Build(ts, run, depth, name, FRESH).1.order,
                Find(ts, ts[t].deps[i]), b);
  }

  lemma GoalParts(ts: seq<Target>, run: Dispatch, depth: nat, name: string)
    requires Find(ts, name) < |ts| && Build(ts, run, depth, name, FRESH).0 == OK
    ensures depth > 0
    ensures var (o, st1) := BuildDeps(ts, run, depth - 1, ts[Find(ts, name)].deps, FRESH);
      o == OK && st1.order <= Build(ts, run, depth, name, FRESH).1.order
  {
    hide Find, BuildDeps, Recipe;
    var t := Find(ts, name);
    RecipeMarks(run, t, ts[t].cmds, BuildDeps(ts, run, depth - 1, ts[t].deps, FRESH).1);
  }

  lemma DepsOfGoal(ts: seq<Target>, run: Dispatch, depth: nat, t: nat, i: nat, b: nat)
    requires t < |ts| && i < |ts[t].deps| && Find(ts, ts[t].deps[i]) < |ts| && b !in Needed(ts, ts[t].deps, i + 1)
    requires BuildDeps(ts, run, depth, ts[t].deps, FRESH).0 == OK
    ensures DoneBefore(BuildDeps(ts, run, depth, ts[t].deps, FRESH).1.order, Find(ts, ts[t].deps[i]), b)
  {
    hide *;
    FreshTopological(ts);
    FreshPath(ts, t);
    DepsOnPath(ts, [], t);
    NeededClosed(ts, ts[t].deps, i + 1);
    DepsOrdered(ts, run, depth, ts[t].deps, FRESH, [t], i, Needed(ts, ts[t].deps, i + 1), b);
  }

  lemma FreshPath(ts: seq<Target>, t: nat)
    requires t < |ts|
    ensures [] + [t] == [t] && IsPath(ts, [] + [t]) && Untouched([t], FRESH.built) && FRESH.built == {}
  {
  }

  /** A goal that no target agrees with is refused with -1 and nothing is built or run. */
  lemma UnknownGoal(ts: seq<Target>, run: Dispatch, depth: nat, name: string, st: Progress)
    ensures (forall t | 0 <= t < |ts| :: !Agree(ts[t].name, name)) ==> Build(ts, run, depth, name, st) == (Outcome.Done(-1), st)
    ensures Build(ts, run, depth, name, st).0 == OK ==> exists t :: 0 <= t < |ts| && Agree(ts[t].name, name)
  {
    hide BuildDeps, Recipe, Find, Agree;
    MakeMeaning.FoundIs(ts, name);
  }

  /** The shell is given each command of a recipe without the first @ in front. */
  lemma {:induction false} CommandsAre(cmds: seq<string>, i: nat)
    requires i < |cmds|
    ensures MakeProof.Commands(cmds)[i] == if "@" <= cmds[i] then cmds[i][1..] else cmds[i]
  {
    if i > 0 {
      CommandsAre(cmds[1..], i - 1);
    }
  }
}
