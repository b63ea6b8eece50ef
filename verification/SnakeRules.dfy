/** The rules of Snake, said without the functions of the game: what each key and each redraw does. */
module SnakeRules {
  import opened SnakeGame

  /** The cell the head moves to: one step on, and round the edge in Easy mode. */
  function Target(s: Snake): Pos
    requires s.body != []
  {
    var x, y := s.body[0].x + s.dx, s.body[0].y + s.dy;
    if s.difficulty == 0 then Pos((x + 20) % 20, (y + 20) % 20) else Pos(x, y)
  }

  predicate OnBoard(p: Pos) {
    0 <= p.x < 20 && 0 <= p.y < 20
  }

  /** More than eight ticks after the last move, or four in Hard mode; the counter has 32 bits. */
  predicate IsDue(s: Snake, ticks: nat) {
    (ticks - s.moved) % 0x1_0000_0000 > if s.difficulty == 2 then 4 else 8
  }

  /** One step of the random numbers, and the coordinate drawn. */
  function NextDraw(seed: nat): nat {
    (seed * 1103515245 + 12345) % 0x1_0000_0000
  }

  function Coordinate(seed: nat): nat {
    seed / 65536 % 32768 % 20
  }

  predicate FoodPlaced(s: Snake, r: Snake) {
    && r.seed == NextDraw(NextDraw(s.seed))
    && r.food == Pos(Coordinate(NextDraw(s.seed)), Coordinate(NextDraw(NextDraw(s.seed))))
  }

  lemma TargetIsFront(s: Snake)
    requires s.body != [] && InGrid(s.body[0]) && Unit(s.dx, s.dy)
    ensures Front(s) == Target(s)
  {
  }

  /** A redraw that is not due, or of a game that is over or not begun, changes nothing. */
  lemma IdleRedraw(s: Snake, ticks: nat)
    requires s.over || s.body == [] || !IsDue(s, ticks)
    ensures Step(s, Draw(ticks)) == s
  {
  }

  /** A due redraw moves: into a wall or itself it ends the game and moves nothing; onto the food it grows by one cell, up
      to 399, adds 10 and places food anew; else head and tail go one cell on. */
  lemma RedrawMoves(s: Snake, ticks: nat)
    requires Sound(s) && !s.over && IsDue(s, ticks)
    ensures var r := Step(s, Draw(ticks));
      && s.body != [] && r.moved == ticks && r.dx == s.dx && r.dy == s.dy && r.difficulty == s.difficulty && r.first == s.first
      && var p := Target(s);
      && (r.over <==> !OnBoard(p) || p in s.body)
      && (r.over ==> r == s.(over := true, moved := ticks))
      && (!r.over && p == s.food ==>
            && r.score == s.score + 10 && FoodPlaced(s, r)
            && r.body == [p] + (if |s.body| < 399 then s.body else s.body[..|s.body| - 1]))
      && (!r.over && p != s.food ==>
            r.score == s.score && r.food == s.food && r.seed == s.seed && r.body == [p] + s.body[..|s.body| - 1])
  {
    hide Sound, Playing, Wrap, InGrid, Drawn, NextSeed, PlaceFood;
    SoundParts(s);
    HeadInGrid(s);
    var m := s.(moved := ticks);
    TargetIsFront(m);
    assert Target(m) == Target(s);
    assert InGrid(Target(s)) <==> OnBoard(Target(s)) by { BoardIs(Target(s)); }
    MoveIs(m);
  }

  lemma BoardIs(p: Pos)
    ensures InGrid(p) <==> OnBoard(p)
  {
  }

  lemma SoundParts(s: Snake)
    requires Sound(s) && !s.over
    ensures s.body != [] && Unit(s.dx, s.dy) && |s.body| <= 399
  {
    hide Inside, Distinct, Linked;
  }

  lemma MoveIs(s: Snake)
    requires s.body != [] && !s.over && |s.body| <= 399
    ensures var r, p := Move(s), Front(s);
      && (r.over <==> !InGrid(p) || p in s.body)
      && (r.over ==> r == s.(over := true))
      && (!r.over ==> r.moved == s.moved && r.dx == s.dx && r.dy == s.dy && r.difficulty == s.difficulty && r.first == s.first)
      && (!r.over && p == s.food ==>
            && r.score == s.score + 10 && FoodPlaced(s, r)
            && r.body == [p] + (if |s.body| < 399 then s.body else s.body[..|s.body| - 1]))
      && (!r.over && p != s.food ==>
            r.score == s.score && r.food == s.food && r.seed == s.seed && r.body == [p] + s.body[..|s.body| - 1])
  {
    hide Front, InGrid, PlaceFood;
    var p := Front(s);
    var grown := s.(body := [p] + s.body, score := s.score + 10);
    var same := s.(body := [p] + s.body[..|s.body| - 1], score := s.score + 10);
    PlacedIs(grown);
    PlacedIs(same);
  }

  lemma PlacedIs(s: Snake)
    ensures PlaceFood(s) == s.(food := PlaceFood(s).food, seed := PlaceFood(s).seed) && FoodPlaced(s, PlaceFood(s))
  {
  }

  /** A new game: three cells in the middle, heading right, score 0. */
  predicate Begun(s: Snake, ticks: nat, difficulty: nat, r: Snake) {
    && r.body == [Pos(10, 10), Pos(9, 10), Pos(8, 10)] && r.dx == 1 && r.dy == 0 && r.score == 0
    && !r.over && !r.first && r.moved == ticks && r.difficulty == difficulty && FoodPlaced(s, r)
  }

  /** Keys of a game that is over: Enter (by its low byte), r and R start again, 1, 2 and 3 in that difficulty; any other
      does nothing. */
  lemma KeysWhenOver(s: Snake, k: nat, ticks: nat)
    requires s.over
    ensures var r := Step(s, Key(k, ticks));
      if k == 114 || k == 82 || k % 256 == 13 then Begun(s, ticks, s.difficulty, r)
      else if k == 49 then Begun(s, ticks, 0, r)
      else if k == 50 then Begun(s, ticks, 1, r)
      else if k == 51 then Begun(s, ticks, 2, r)
      else r == s
  {
    hide PlaceFood, FoodPlaced;
    ResetIs(s, ticks);
    ResetIs(s.(difficulty := 0), ticks);
    ResetIs(s.(difficulty := 1), ticks);
    ResetIs(s.(difficulty := 2), ticks);
    assert 'r' as nat == 114 && 'R' as nat == 82 && '1' as nat == 49 && '2' as nat == 50 && '3' as nat == 51;
    SamePlaced(s, 0); SamePlaced(s, 1); SamePlaced(s, 2);
  }

  lemma SamePlaced(s: Snake, d: nat)
    ensures forall r :: FoodPlaced(s.(difficulty := d), r) <==> FoodPlaced(s, r)
  {
  }

  lemma ResetIs(s: Snake, ticks: nat)
    ensures Begun(s, ticks, s.difficulty, Reset(s, ticks))
  {
    hide PlaceFood;
    PlacedIs(s.(body := [Pos(10, 10), Pos(9, 10), Pos(8, 10)], dx := 1, dy := 0, score := 0, over := false, first := false,
                moved := ticks));
  }

  /** Keys of a running game: an arrow or one of w, a, s, d in either case sets the direction unless the snake goes the
      opposite way; nothing else changes, and no other key does anything. */
  lemma KeysWhenRunning(s: Snake, k: nat, ticks: nat)
    requires !s.over
    ensures Step(s, Key(k, ticks)) ==
      if k in {0x48, 119, 87} && s.dy != 1 then s.(dx := 0, dy := -1)
      else if k in {0x50, 115, 83} && s.dy != -1 then s.(dx := 0, dy := 1)
      else if k in {0x4B, 97, 65} && s.dx != 1 then s.(dx := -1, dy := 0)
      else if k in {0x4D, 100, 68} && s.dx != -1 then s.(dx := 1, dy := 0)
      else s
  {
    assert 'w' as nat == 119 && 'W' as nat == 87 && 's' as nat == 115 && 'S' as nat == 83;
    assert 'a' as nat == 97 && 'A' as nat == 65 && 'd' as nat == 100 && 'D' as nat == 68;
  }
}
