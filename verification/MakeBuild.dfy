/** The depth-first builder of MAKE. */
module MakeBuild {
  import opened CText

  datatype Target = Target(name: string, deps: seq<string>, cmds: seq<string>, phony: bool)

  /** What the shell answers to a command, given every command run before it. */
  type Dispatch = (seq<string>, string) -> int

  const NOT_FOUND := -255

  /** `order` lists the targets in the order they were marked built, `history` the commands run. */
  datatype Progress = Progress(built: set<nat>, order: seq<nat>, history: seq<string>)

  /** A build either returns a code or exhausts the call stack, which holds a bounded number of
      unfinished targets. */
  datatype Outcome = Done(rc: int) | Overflow

  const OK := Done(0)

  /** The first target of that name, or |ts|. */
  function Find(ts: seq<Target>, name: string): (t: nat)
    ensures t <= |ts|
  {
    if ts == [] then 0
    else if Upper(ts[0].name) == Upper(name) then 0
    else 1 + Find(ts[1..], name)
  }

  function Build(ts: seq<Target>, run: Dispatch, depth: nat, name: string, st: Progress): (Outcome, Progress)
    decreases depth, 0, 0
  {
    var t := Find(ts, name);
    if t == |ts| then (Done(-1), st)
    else if t in st.built then (OK, st)
    else if depth == 0 then (Overflow, st)
    else
      var (o, st1) := BuildDeps(ts, run, depth - 1, ts[t].deps, st);
      if o != OK then (o, st1) else Recipe(run, t, ts[t].cmds, st1)
  }

  /** Unknown dependencies are passed over; the first failure stops everything. */
  function BuildDeps(ts: seq<Target>, run: Dispatch, depth: nat, deps: seq<string>, st: Progress): (Outcome, Progress)
    decreases depth, 1, |deps|
  {
    if deps == [] then (OK, st)
    else if Find(ts, deps[0]) == |ts| then BuildDeps(ts, run, depth, deps[1..], st)
    else
      var (o, st1) := Build(ts, run, depth, deps[0], st);
      if o != OK then (o, st1) else BuildDeps(ts, run, depth, deps[1..], st1)
  }

  function Recipe(run: Dispatch, t: nat, cmds: seq<string>, st: Progress): (Outcome, Progress) {
    var (rc, history) := RunAll(run, cmds, st.history);
    if rc != 0 then (Done(rc), st.(history := history))
    else (OK, Progress(st.built + {t}, st.order + [t], history))
  }

  function Unsilenced(cmd: string): string {
    if cmd != "" && cmd[0] == '@' then cmd[1..] else cmd
  }

  function RunAll(run: Dispatch, cmds: seq<string>, history: seq<string>): (int, seq<string>) {
    if cmds == [] then (0, history)
    else
      var cmd := Unsilenced(cmds[0]);
      var rc := run(history, cmd);
      if rc != 0 && rc != NOT_FOUND then (rc, history + [cmd])
      else RunAll(run, cmds[1..], history + [cmd])
  }

  // ---- the rule graph ----

  /** d is a known dependency of t. */
  predicate Edge(ts: seq<Target>, t: nat, d: nat) {
    t < |ts| && d < |ts| && exists i | 0 <= i < |ts[t].deps| :: Find(ts, ts[t].deps[i]) == d
  }

  ghost predicate IsPath(ts: seq<Target>, p: seq<nat>) {
    && (forall i | 0 <= i < |p| :: p[i] < |ts|)
    && (forall i | 0 < i < |p| :: Edge(ts, p[i - 1], p[i]))
  }

  /** Every known dependency of a built target is built. */
  ghost predicate Closed(ts: seq<Target>, built: set<nat>) {
    forall t, d | t in built && Edge(ts, t, d) :: d in built
  }

  /** Every target in the set depends on another one, or itself, in the set: the set holds a cycle. */
  ghost predicate Sustained(ts: seq<Target>, c: set<nat>) {
    forall t | t in c :: exists d :: d in c && Edge(ts, t, d)
  }

  ghost predicate Acyclic(ts: seq<Target>, r: set<nat>) {
    forall c | c <= r && Sustained(ts, c) :: c == {}
  }

  /** The order is topological: each target comes once, after all its known dependencies. */
  ghost predicate Topological(ts: seq<Target>, st: Progress) {
    && (forall k | 0 <= k < |st.order| :: st.order[k] < |ts|)
    && (forall t :: t in st.built <==> t in st.order)
    && (forall j, k | 0 <= j < k < |st.order| :: st.order[j] != st.order[k])
    && (forall k, d | 0 <= k < |st.order| && Edge(ts, st.order[k], d) :: d in st.order[..k])
  }

  // ---- cycles never finish ----

  lemma {:induction false} CycleNotDone(ts: seq<Target>, run: Dispatch, depth: nat, name: string, st: Progress, c: set<nat>)
    requires Sustained(ts, c) && c !! st.built
    ensures var (o, st') := Build(ts, run, depth, name, st);
      c !! st'.built && (Find(ts, name) in c ==> o != OK)
    decreases depth, 0, 0
  {
    hide Find, BuildDeps, Recipe, Edge, Sustained;
    var t := Find(ts, name);
    if t < |ts| && t !in st.built && depth > 0 {
      CycleInDeps(ts, run, depth - 1, ts[t].deps, st, c);
      var (o, st1) := BuildDeps(ts, run, depth - 1, ts[t].deps, st);
      if o == OK {
        RecipeMarks(run, t, ts[t].cmds, st1);
        if t in c {
          SustainedDep(ts, t, c);
        }
      }
    }
  }

  /** A recipe marks its own target, and only when it succeeds. */
  lemma RecipeMarks(run: Dispatch, t: nat, cmds: seq<string>, st: Progress)
    ensures var (o, st') := Recipe(run, t, cmds, st);
      && o.Done?
      && (o == OK ==> st'.built == st.built + {t} && st'.order == st.order + [t])
      && (o != OK ==> st'.built == st.built && st'.order == st.order)
  {
    hide RunAll;
  }

  lemma SustainedDep(ts: seq<Target>, t: nat, c: set<nat>)
    requires Sustained(ts, c) && t in c
    ensures t < |ts| && exists i | 0 <= i < |ts[t].deps| :: Find(ts, ts[t].deps[i]) in c && Find(ts, ts[t].deps[i]) < |ts|
  {
    hide Find;
    var d :| d in c && Edge(ts, t, d);
  }

  lemma {:induction false} CycleInDeps(ts: seq<Target>, run: Dispatch, depth: nat, deps: seq<string>, st: Progress, c: set<nat>)
    requires Sustained(ts, c) && c !! st.built
    ensures var (o, st') := BuildDeps(ts, run, depth, deps, st);
      c !! st'.built && (o == OK ==> forall i | 0 <= i < |deps| :: Find(ts, deps[i]) < |ts| ==> Find(ts, deps[i]) !in c)
    decreases depth, 1, |deps|
  {
    hide Find, Build, Sustained;
    if deps != [] {
      assert forall i | 0 < i < |deps| :: deps[i] == deps[1..][i - 1];
      if Find(ts, deps[0]) == |ts| {
        CycleInDeps(ts, run, depth, deps[1..], st, c);
      } else {
        CycleNotDone(ts, run, depth, deps[0], st, c);
        var (o, st1) := Build(ts, run, depth, deps[0], st);
        if o == OK {
          CycleInDeps(ts, run, depth, deps[1..], st1, c);
        }
      }
    }
  }
}
