/** Turning the snake back: the guard on the keys looks at the direction and not at the last move, so several keys
    between two moves can send the head into its own neck. Which keys do is settled exactly. */
module SnakeTurns {
  import opened SnakeGame

  /** The key of a direction. */
  predicate Toward(k: nat, dx: int, dy: int) {
    || (IsUp(k) && dx == 0 && dy == -1)
    || (IsDown(k) && dx == 0 && dy == 1)
    || (IsLeft(k) && dx == -1 && dy == 0)
    || (IsRight(k) && dx == 1 && dy == 0)
  }

  predicate Forth(s: Snake, k: nat) { Toward(k, s.dx, s.dy) }
  predicate Back(s: Snake, k: nat) { Toward(k, -s.dx, -s.dy) }
  predicate Across(s: Snake, k: nat) { Toward(k, s.dy, s.dx) || Toward(k, -s.dy, -s.dx) }

  predicate Reversed(s: Snake, r: Snake) {
    r.dx == -s.dx && r.dy == -s.dy
  }

  predicate Turned(s: Snake, r: Snake) {
    (r.dx == s.dy && r.dy == s.dx) || (r.dx == -s.dy && r.dy == -s.dx)
  }

  predicate Running(s: Snake) {
    !s.over && Unit(s.dx, s.dy)
  }

  /** Keys pressed one after the other, at any times. */
  function Steered(s: Snake, keys: seq<(nat, nat)>): Snake
    decreases |keys|
  {
    if keys == [] then s
    else
      var (k, ticks) := keys[|keys| - 1];
      Press(Steered(s, keys[..|keys| - 1]), k, ticks)
  }

  /** What one key does to a snake that goes forth, across or back, seen from the course s. */
  lemma PressTurns(s: Snake, r: Snake, k: nat, ticks: nat)
    requires Running(s) && Running(r)
    ensures var r' := Press(r, k, ticks);
      && r' == r.(dx := r'.dx, dy := r'.dy) && Running(r')
      && (Across(s, k) ==> Turned(s, r'))
      && (Forth(s, k) ==> (Reversed(s, r) <==> Reversed(s, r')) && !Turned(s, r'))
      && (Back(s, k) ==> (Reversed(s, r) || Turned(s, r) <==> Reversed(s, r')) && !Turned(s, r'))
      && (!Across(s, k) && !Forth(s, k) && !Back(s, k) ==> r' == r)
  {
  }

  /** One key never turns the snake back; a second one does exactly when the first goes across the course and the
      second against it. */
  lemma TwoKeysReverse(s: Snake, j: nat, k: nat, t: nat, u: nat)
    requires Running(s)
    ensures !Reversed(s, Press(s, j, t))
    ensures Reversed(s, Press(Press(s, j, t), k, u)) <==> Across(s, j) && Back(s, k)
  {
    PressTurns(s, s, j, t);
    PressTurns(s, Press(s, j, t), k, u);
  }

  // ---- Any number of keys ----

  /** The last key that steers at all goes across the course. */
  ghost predicate EndsAcross(s: Snake, keys: seq<(nat, nat)>) {
    exists i | 0 <= i < |keys| :: Across(s, keys[i].0) && forall m | i < m < |keys| :: !Steers(s, keys[m].0)
  }

  predicate Steers(s: Snake, k: nat) {
    Across(s, k) || Forth(s, k) || Back(s, k)
  }

  /** The last key across the course is followed by a key back before any key forth. */
  ghost predicate TurnsBack(s: Snake, keys: seq<(nat, nat)>) {
    exists i, j | 0 <= i < j < |keys| :: BackAfter(s, keys, i, j)
  }

  ghost predicate BackAfter(s: Snake, keys: seq<(nat, nat)>, i: nat, j: nat)
    requires i < j < |keys|
  {
    && Across(s, keys[i].0) && Back(s, keys[j].0)
    && (forall m | i < m < |keys| :: !Across(s, keys[m].0))
    && (forall m | i < m < j :: !Forth(s, keys[m].0))
  }

  /** After any keys the snake is turned back exactly when the last key across its course is followed by a key
      back before any key forth. */
  lemma {:induction false} SteeredTurns(s: Snake, keys: seq<(nat, nat)>)
    requires Running(s)
    ensures var r := Steered(s, keys);
      && r == s.(dx := r.dx, dy := r.dy) && Running(r)
      && (Turned(s, r) <==> EndsAcross(s, keys)) && (Reversed(s, r) <==> TurnsBack(s, keys))
    decreases |keys|
  {
    hide Press, Across, Forth, Back;
    if keys != [] {
      var front, k := keys[..|keys| - 1], keys[|keys| - 1].0;
      SteeredTurns(s, front);
      PressTurns(s, Steered(s, front), k, keys[|keys| - 1].1);
      OneWay(s, k);
      if Across(s, k) {
        NowAcross(s, keys);
      } else if Back(s, k) {
        NowBack(s, keys);
      } else {
        NotBackNow(s, keys);
      }
    }
  }

  /** No key lies two ways at once. */
  lemma OneWay(s: Snake, k: nat)
    requires Running(s)
    ensures !(Across(s, k) && Forth(s, k)) && !(Across(s, k) && Back(s, k)) && !(Forth(s, k) && Back(s, k))
  {
  }

  lemma NowAcross(s: Snake, keys: seq<(nat, nat)>)
    requires keys != [] && var k := keys[|keys| - 1].0; Across(s, k) && !Back(s, k)
    ensures EndsAcross(s, keys) && !TurnsBack(s, keys)
  {
    hide Across, Forth, Back;
  }

  lemma NowBack(s: Snake, keys: seq<(nat, nat)>)
    requires keys != [] && var k := keys[|keys| - 1].0; Back(s, k) && !Across(s, k)
    ensures var front := keys[..|keys| - 1];
      !EndsAcross(s, keys) && (TurnsBack(s, keys) <==> TurnsBack(s, front) || EndsAcross(s, front))
  {
    hide Across, Forth, Back, TurnsBack;
    var front := keys[..|keys| - 1];
    if TurnsBack(s, front) || EndsAcross(s, front) {
      BackFrom(s, keys);
    }
    BackSince(s, keys);
  }

  lemma BackFrom(s: Snake, keys: seq<(nat, nat)>)
    requires keys != [] && var k := keys[|keys| - 1].0; Back(s, k) && !Across(s, k)
    requires var front := keys[..|keys| - 1]; TurnsBack(s, front) || EndsAcross(s, front)
    ensures TurnsBack(s, keys)
  {
    hide Across, Forth, Back;
    var n := |keys| - 1;
    var front := keys[..n];
    if EndsAcross(s, front) {
      var i :| 0 <= i < n && Across(s, front[i].0) && forall m | i < m < n :: !Steers(s, front[m].0);
      assert forall m | i < m < n :: keys[m] == front[m];
      assert BackAfter(s, keys, i, n);
    } else {
      var i, j :| 0 <= i < j < n && BackAfter(s, front, i, j);
      assert BackAfter(s, keys, i, j);
    }
  }

  lemma BackSince(s: Snake, keys: seq<(nat, nat)>)
    requires keys != [] && var k := keys[|keys| - 1].0; Back(s, k) && !Across(s, k)
    ensures var front := keys[..|keys| - 1]; TurnsBack(s, keys) ==> TurnsBack(s, front) || EndsAcross(s, front)
  {
    hide Across, Forth, Back;
    var n := |keys| - 1;
    var front := keys[..n];
    if TurnsBack(s, keys) {
      var i, j :| 0 <= i < j < |keys| && BackAfter(s, keys, i, j);
      if m :| i < m < n && Back(s, keys[m].0) && m <= j {
        assert BackAfter(s, front, i, m);
      } else {
        assert j == n;
        assert forall m | i < m < n :: !Steers(s, front[m].0);
      }
    }
  }

  lemma NotBackNow(s: Snake, keys: seq<(nat, nat)>)
    requires keys != [] && var k := keys[|keys| - 1].0; !Back(s, k) && !Across(s, k)
    ensures var front := keys[..|keys| - 1]; TurnsBack(s, keys) <==> TurnsBack(s, front)
    ensures var front, k := keys[..|keys| - 1], keys[|keys| - 1].0;
      EndsAcross(s, keys) <==> !Forth(s, k) && EndsAcross(s, front)
  {
    hide Across, Forth, Back;
    var n := |keys| - 1;
    var front := keys[..n];
    if TurnsBack(s, front) {
      var i, j :| 0 <= i < j < n && BackAfter(s, front, i, j);
      assert BackAfter(s, keys, i, j);
    }
    if TurnsBack(s, keys) {
      var i, j :| 0 <= i < j < |keys| && BackAfter(s, keys, i, j);
      assert BackAfter(s, front, i, j);
    }
    if EndsAcross(s, front) {
      var i :| 0 <= i < n && Across(s, front[i].0) && forall m | i < m < n :: !Steers(s, front[m].0);
      assert Across(s, keys[i].0) && forall m | i < m < n :: keys[m] == front[m];
    }
    if EndsAcross(s, keys) {
      var i :| 0 <= i < |keys| && Across(s, keys[i].0) && forall m | i < m < |keys| :: !Steers(s, keys[m].0);
      assert front[i] == keys[i] && forall m | i < m < n :: keys[m] == front[m];
      assert !Steers(s, keys[n].0);
    }
  }

  /** Without a key across its course the snake is never turned back. */
  lemma NoneAcross(s: Snake, keys: seq<(nat, nat)>)
    requires Running(s) && forall i | 0 <= i < |keys| :: !Across(s, keys[i].0)
    ensures !Reversed(s, Steered(s, keys))
  {
    hide Across, Forth, Back, Press, Steered;
    SteeredTurns(s, keys);
  }

  // ---- The next move ----

  /** The second cell lies straight behind the head, as it does after every move. */
  predicate Straight(s: Snake) {
    |s.body| > 1 && s.body[1] == Pos(Wrap(s.body[0].x - s.dx), Wrap(s.body[0].y - s.dy))
  }

  lemma ResetStraight(s: Snake, ticks: nat)
    ensures Straight(Reset(s, ticks))
  {
    hide PlaceFood;
    FoodOnly(s.(body := [Pos(GRID / 2, GRID / 2), Pos(GRID / 2 - 1, GRID / 2), Pos(GRID / 2 - 2, GRID / 2)],
                dx := 1, dy := 0, score := 0, over := false, first := false, moved := ticks));
  }

  /** Every move, from every state of a game, leaves the snake straight behind its head. */
  lemma MoveStraight(s: Snake, ticks: nat)
    requires Sound(s) && !s.over && Due(s, ticks) && !Step(s, Draw(ticks)).over
    ensures Straight(Step(s, Draw(ticks)))
  {
    hide PlaceFood, Sound, Due, Front;
    HeadInGrid(s);
    LongEnough(s);
    var m := s.(moved := ticks);
    FrontSame(s, m);
    MovedBody(m);
    StraightAhead(m);
  }

  lemma FrontSame(s: Snake, m: Snake)
    requires s.body != [] && m == s.(moved := m.moved)
    ensures Front(m) == Front(s)
  {
  }

  lemma LongEnough(s: Snake)
    requires Sound(s) && !s.over
    ensures |s.body| >= 3 && Unit(s.dx, s.dy)
  {
    hide Inside, Distinct, Linked;
  }

  lemma MovedBody(s: Snake)
    requires |s.body| > 1 && !Move(s).over && !s.over
    ensures var r := Move(s);
      |r.body| > 1 && r.body[0] == Front(s) && r.body[1] == s.body[0] && r.dx == s.dx && r.dy == s.dy && InGrid(Front(s))
  {
    hide Front, InGrid;
  }

  lemma StraightAhead(s: Snake)
    requires s.body != [] && InGrid(s.body[0]) && Unit(s.dx, s.dy) && InGrid(Front(s))
    ensures s.body[0] == Pos(Wrap(Front(s).x - s.dx), Wrap(Front(s).y - s.dy))
  {
  }

  /** Between two moves: the keys aim the head at its own neck exactly when they turn the snake back. */
  lemma NeckAhead(s: Snake, keys: seq<(nat, nat)>)
    requires Sound(s) && !s.over && Straight(s)
    ensures Steered(s, keys).body == s.body && (Front(Steered(s, keys)) == s.body[1] <==> TurnsBack(s, keys))
  {
    hide Steered, TurnsBack, Sound, Front, Straight, EndsAcross;
    LongEnough(s);
    HeadInGrid(s);
    SteeredTurns(s, keys);
    NeckInGrid(s);
    NeckFaced(s, Steered(s, keys));
  }

  lemma NeckInGrid(s: Snake)
    requires Sound(s) && !s.over
    ensures |s.body| > 1 && InGrid(s.body[1]) && Adjacent(s.body[0], s.body[1], s.difficulty == 0)
  {
    LongEnough(s);
    CellInGrid(s.body, s.body[1]);
  }

  lemma NeckFaced(s: Snake, r: Snake)
    requires Running(s) && Running(r) && r == s.(dx := r.dx, dy := r.dy) && Straight(s)
    requires InGrid(s.body[0]) && Adjacent(s.body[0], s.body[1], s.difficulty == 0)
    ensures Front(r) == s.body[1] <==> Reversed(s, r)
  {
  }

  /** Keys that turn the snake back end the game at the next move. */
  lemma TurningBackEnds(s: Snake, keys: seq<(nat, nat)>, ticks: nat)
    requires Sound(s) && !s.over && Straight(s) && TurnsBack(s, keys) && Due(s, ticks)
    ensures Step(Steered(s, keys), Draw(ticks)).over
  {
    hide Steered, TurnsBack, Sound, Front, Straight, Due, EndsAcross, InGrid;
    LongEnough(s);
    SteeredTurns(s, keys);
    NeckAhead(s, keys);
    NeckInGrid(s);
    var r := Steered(s, keys);
    DueSame(s, r, ticks);
    FrontSame(r, r.(moved := ticks));
  }

  // ---- In a whole game ----

  function KeyEvents(keys: seq<(nat, nat)>): seq<Event>
    decreases |keys|
  {
    if keys == [] then []
    else KeyEvents(keys[..|keys| - 1]) + [Key(keys[|keys| - 1].0, keys[|keys| - 1].1)]
  }

  lemma {:induction false} RunSplit(s: Snake, a: seq<Event>, b: seq<Event>)
    ensures Run(s, a + b) == Run(Run(s, a), b)
    decreases |a|
  {
    hide Step;
    if a == [] {
      assert a + b == b;
    } else {
      assert (a + b)[1..] == a[1..] + b;
      RunSplit(Step(s, a[0]), a[1..], b);
    }
  }

  lemma RunOne(s: Snake, e: Event)
    ensures Run(s, [e]) == Step(s, e)
  {
    hide Step;
    assert [e][1..] == [];
  }

  lemma {:induction false} KeysRun(s: Snake, keys: seq<(nat, nat)>)
    ensures Run(s, KeyEvents(keys)) == Steered(s, keys)
    decreases |keys|
  {
    hide Run, Press;
    if keys == [] {
      assert Run(s, []) == s by { NothingRun(s); }
    } else {
      var last := Key(keys[|keys| - 1].0, keys[|keys| - 1].1);
      KeysRun(s, keys[..|keys| - 1]);
      RunSplit(s, KeyEvents(keys[..|keys| - 1]), [last]);
      RunOne(Steered(s, keys[..|keys| - 1]), last);
    }
  }

  lemma NothingRun(s: Snake)
    ensures Run(s, []) == s
  {
  }

  /** In every game: after any move that did not end it, any keys before the next due redraw aim the head at the
      neck exactly when they turn the snake back, and the game is then over at that redraw. */
  lemma EveryGameTurns(seed: nat, before: seq<Event>, t: nat, keys: seq<(nat, nat)>, u: nat)
    requires var s := Run(Opening(seed), before); !s.over && Due(s, t)
    requires var m := Run(Opening(seed), before + [Draw(t)]); !m.over && Due(m, u)
    ensures var m := Run(Opening(seed), before + [Draw(t)]);
      var r := Run(Opening(seed), before + [Draw(t)] + KeyEvents(keys));
      && r.body == m.body && |m.body| > 1 && (Front(r) == m.body[1] <==> TurnsBack(m, keys))
      && (TurnsBack(m, keys) ==> Run(Opening(seed), before + [Draw(t)] + KeyEvents(keys) + [Draw(u)]).over)
  {
    hide Run, Step, Due, Sound, TurnsBack, Steered, Straight, Front;
    var s := Run(Opening(seed), before);
    var m := Run(Opening(seed), before + [Draw(t)]);
    EveryGameSound(seed, before);
    EveryGameSound(seed, before + [Draw(t)]);
    RunSplit(Opening(seed), before, [Draw(t)]);
    RunOne(s, Draw(t));
    MoveStraight(s, t);
    LongEnough(m);
    NeckAhead(m, keys);
    RunSplit(Opening(seed), before + [Draw(t)], KeyEvents(keys));
    KeysRun(m, keys);
    RunSplit(Opening(seed), before + [Draw(t)] + KeyEvents(keys), [Draw(u)]);
    RunOne(Steered(m, keys), Draw(u));
    if TurnsBack(m, keys) {
      TurningBackEnds(m, keys, u);
    }
  }

  /** A game started with Enter, then 'w' and 'a' before the first move: the snake dies at once. */
  lemma OpeningTurnsBack(seed: nat)
    ensures var keys := [('w' as nat, 0), ('a' as nat, 0)];
      var started := Run(Opening(seed), [Key(13, 0)]);
      && !started.over && !Run(started, KeyEvents(keys)).over
      && Run(started, KeyEvents(keys) + [Draw(9)]).over
  {
    hide Run, Step, Sound, TurnsBack, Steered, Straight, Front, EndsAcross;
    var keys := [('w' as nat, 0), ('a' as nat, 0)];
    var s := Run(Opening(seed), [Key(13, 0)]);
    EveryGameSound(seed, [Key(13, 0)]);
    RunOne(Opening(seed), Key(13, 0));
    Started(Opening(seed));
    KeysRun(s, keys);
    SteeredTurns(s, keys);
    BackAtOnce(s, keys);
    TurningBackEnds(s, keys, 9);
    RunSplit(s, KeyEvents(keys), [Draw(9)]);
    RunOne(Steered(s, keys), Draw(9));
  }

  lemma Started(s: Snake)
    requires s.over && s.difficulty == 0
    ensures var r := Step(s, Key(13, 0));
      !r.over && r.dx == 1 && r.dy == 0 && Straight(r) && Due(r, 9)
  {
    hide PlaceFood, Straight;
    ResetStraight(s, 0);
    FoodOnly(s.(body := [Pos(GRID / 2, GRID / 2), Pos(GRID / 2 - 1, GRID / 2), Pos(GRID / 2 - 2, GRID / 2)],
                dx := 1, dy := 0, score := 0, over := false, first := false, moved := 0));
  }

  lemma BackAtOnce(s: Snake, keys: seq<(nat, nat)>)
    requires s.dx == 1 && s.dy == 0 && |keys| == 2 && keys[0].0 == 'w' as nat && keys[1].0 == 'a' as nat
    ensures TurnsBack(s, keys)
  {
    assert BackAfter(s, keys, 0, 1);
  }
}
