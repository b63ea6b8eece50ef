/** The Snake game: its rules as a state machine, and what every reachable state keeps. */
module SnakeGame {
  import opened Bytes

  const GRID := 20
  const MAX_LENGTH := 400

  datatype Pos = Pos(x: int, y: int)

  /** `first` holds until the first game is started; `body` is then empty. */
  datatype Snake = Snake(body: seq<Pos>, dx: int, dy: int, food: Pos, score: nat, over: bool,
                         moved: nat, seed: nat, difficulty: nat, first: bool)

  /** A key press, or a redraw; both read the tick counter. */
  datatype Event = Key(code: nat, ticks: nat) | Draw(ticks: nat)

  function Opening(seed: nat): Snake {
    Snake([], 0, 0, Pos(0, 0), 0, true, 0, seed, 0, true)
  }

  function NextSeed(seed: nat): nat {
    (seed * 1103515245 + 12345) % WORD
  }

  /** A cell coordinate drawn from a seed. */
  function Drawn(seed: nat): nat {
    (seed / 65536) % 32768 % GRID
  }

  function PlaceFood(s: Snake): Snake {
    var a := NextSeed(s.seed);
    var b := NextSeed(a);
    s.(food := Pos(Drawn(a), Drawn(b)), seed := b)
  }

  function Reset(s: Snake, ticks: nat): Snake {
    PlaceFood(s.(body := [Pos(GRID / 2, GRID / 2), Pos(GRID / 2 - 1, GRID / 2), Pos(GRID / 2 - 2, GRID / 2)],
                 dx := 1, dy := 0, score := 0, over := false, first := false, moved := ticks))
  }

  predicate IsUp(k: nat) { k == 0x48 || k == 'w' as nat || k == 'W' as nat }
  predicate IsDown(k: nat) { k == 0x50 || k == 's' as nat || k == 'S' as nat }
  predicate IsLeft(k: nat) { k == 0x4B || k == 'a' as nat || k == 'A' as nat }
  predicate IsRight(k: nat) { k == 0x4D || k == 'd' as nat || k == 'D' as nat }

  predicate Restarts(k: nat) {
    k == 'r' as nat || k == 'R' as nat || k % 256 == 13
  }

  function Press(s: Snake, k: nat, ticks: nat): Snake {
    if s.over then
      if Restarts(k) then Reset(s, ticks)
      else if k == '1' as nat then Reset(s.(difficulty := 0), ticks)
      else if k == '2' as nat then Reset(s.(difficulty := 1), ticks)
      else if k == '3' as nat then Reset(s.(difficulty := 2), ticks)
      else s
    else if IsUp(k) && s.dy != 1 then s.(dx := 0, dy := -1)
    else if IsDown(k) && s.dy != -1 then s.(dx := 0, dy := 1)
    else if IsLeft(k) && s.dx != 1 then s.(dx := -1, dy := 0)
    else if IsRight(k) && s.dx != -1 then s.(dx := 1, dy := 0)
    else s
  }

  predicate InGrid(p: Pos) {
    0 <= p.x < GRID && 0 <= p.y < GRID
  }

  function Wrap(n: int): int {
    if n < 0 then GRID - 1 else if n >= GRID then 0 else n
  }

  /** The cell in front of the head; in Easy mode the walls are joined. */
  function Front(s: Snake): Pos
    requires s.body != []
  {
    var p := Pos(s.body[0].x + s.dx, s.body[0].y + s.dy);
    if s.difficulty == 0 then Pos(Wrap(p.x), Wrap(p.y)) else p
  }

  function Move(s: Snake): Snake
    requires s.body != []
  {
    var p := Front(s);
    if !InGrid(p) || p in s.body then s.(over := true)
    else if p != s.food then s.(body := [p] + s.body[..|s.body| - 1])
    else if |s.body| < MAX_LENGTH - 1 then PlaceFood(s.(body := [p] + s.body, score := s.score + 10))
    else PlaceFood(s.(body := [p] + s.body[..|s.body| - 1], score := s.score + 10))
  }

  /** Enough ticks have passed since the last move; the counter wraps at 32 bits. */
  predicate Due(s: Snake, ticks: nat) {
    (ticks - s.moved) % WORD > if s.difficulty == 2 then 4 else 8
  }

  function Step(s: Snake, e: Event): Snake {
    match e
    case Key(code, ticks) => Press(s, code, ticks)
    case Draw(ticks) =>
      if !s.over && s.body != [] && Due(s, ticks) then Move(s.(moved := ticks)) else s
  }

  function Run(s: Snake, events: seq<Event>): Snake
    decreases |events|
  {
    if events == [] then s else Run(Step(s, events[0]), events[1..])
  }

  // ---- What every state keeps ----

  /** One step apart on the grid, or also across its joined edges. */
  predicate Adjacent(a: Pos, b: Pos, joined: bool) {
    var u, v := a.x - b.x, a.y - b.y;
    || (v == 0 && (u == 1 || u == -1 || (joined && (u == GRID - 1 || u == 1 - GRID))))
    || (u == 0 && (v == 1 || v == -1 || (joined && (v == GRID - 1 || v == 1 - GRID))))
  }

  predicate Inside(body: seq<Pos>) {
    forall p :: p in body ==> InGrid(p)
  }

  predicate Distinct(body: seq<Pos>) {
    forall i, j :: 0 <= i < j < |body| ==> body[i] != body[j]
  }

  predicate Linked(body: seq<Pos>, joined: bool) {
    forall i :: 0 < i < |body| ==> Adjacent(body[i - 1], body[i], joined)
  }

  function FullLength(score: nat): nat {
    if 3 + score / 10 < MAX_LENGTH - 1 then 3 + score / 10 else MAX_LENGTH - 1
  }

  predicate Unit(dx: int, dy: int) {
    (dx == 0 && (dy == 1 || dy == -1)) || (dy == 0 && (dx == 1 || dx == -1))
  }

  predicate Playing(s: Snake) {
    && Inside(s.body) && Distinct(s.body) && Linked(s.body, s.difficulty == 0)
    && Unit(s.dx, s.dy) && InGrid(s.food)
    && s.score % 10 == 0 && |s.body| == FullLength(s.score)
  }

  predicate Sound(s: Snake) {
    && (s.first ==> s.over)
    && (!s.first ==> Playing(s))
    && s.difficulty <= 2
  }

  lemma PlacedFoodInGrid(s: Snake)
    ensures InGrid(PlaceFood(s).food)
  {
  }

  lemma ResetSound(s: Snake, ticks: nat)
    requires s.difficulty <= 2
    ensures Sound(Reset(s, ticks))
  {
    hide PlaceFood;
    var r := s.(body := [Pos(GRID / 2, GRID / 2), Pos(GRID / 2 - 1, GRID / 2), Pos(GRID / 2 - 2, GRID / 2)],
                dx := 1, dy := 0, score := 0, over := false, first := false, moved := ticks);
    PlacedFoodInGrid(r);
    FoodOnly(r);
    assert Linked(r.body, s.difficulty == 0);
  }

  lemma FoodOnly(s: Snake)
    ensures PlaceFood(s) == s.(food := PlaceFood(s).food, seed := PlaceFood(s).seed)
  {
  }

  lemma FrontAdjacent(s: Snake)
    requires s.body != [] && InGrid(s.body[0]) && Unit(s.dx, s.dy) && InGrid(Front(s))
    ensures Adjacent(Front(s), s.body[0], s.difficulty == 0)
  {
  }

  /** A new head in a free cell next to the old one keeps the shape. */
  lemma Grow(p: Pos, body: seq<Pos>, joined: bool)
    requires Inside(body) && Distinct(body) && Linked(body, joined) && body != []
    requires InGrid(p) && p !in body && Adjacent(p, body[0], joined)
    ensures Inside([p] + body) && Distinct([p] + body) && Linked([p] + body, joined)
  {
    hide Adjacent, InGrid;
    var b := [p] + body;
    forall i | 0 < i < |b| ensures Adjacent(b[i - 1], b[i], joined) {
      if i > 1 {
        assert b[i - 1] == body[i - 2] && b[i] == body[i - 1];
      }
    }
    forall i, j | 0 <= i < j < |b| ensures b[i] != b[j] {
      assert b[j] == body[j - 1];
      if i > 0 {
        assert b[i] == body[i - 1];
      }
    }
  }

  lemma Shorten(body: seq<Pos>, joined: bool)
    requires Inside(body) && Distinct(body) && Linked(body, joined) && body != []
    ensures var b := body[..|body| - 1]; Inside(b) && Distinct(b) && Linked(b, joined)
  {
    hide Adjacent, InGrid;
  }

  lemma MoveSound(s: Snake)
    requires Playing(s) && !s.over && !s.first && s.difficulty <= 2
    ensures Sound(Move(s))
  {
    hide PlaceFood, Inside, Distinct, Linked, Adjacent, InGrid;
    var p := Front(s);
    if InGrid(p) && p !in s.body {
      assert InGrid(s.body[0]) by { CellInGrid(s.body, s.body[0]); }
      FrontAdjacent(s);
      Grow(p, s.body, s.difficulty == 0);
      Shorten([p] + s.body, s.difficulty == 0);
      assert ([p] + s.body)[..|s.body|] == [p] + s.body[..|s.body| - 1];
      var grown, same := s.(body := [p] + s.body, score := s.score + 10),
                         s.(body := [p] + s.body[..|s.body| - 1], score := s.score + 10);
      PlacedFoodInGrid(grown);
      PlacedFoodInGrid(same);
      FoodOnly(grown);
      FoodOnly(same);
    }
  }

  lemma CellInGrid(body: seq<Pos>, p: Pos)
    requires Inside(body) && p in body
    ensures InGrid(p)
  {
  }

  lemma StepSound(s: Snake, e: Event)
    requires Sound(s)
    ensures Sound(Step(s, e))
  {
    hide Inside, Distinct, Linked, InGrid, Reset, Move, Due, FullLength;
    match e
    case Key(code, ticks) =>
      ResetSound(s, ticks);
      ResetSound(s.(difficulty := 0), ticks);
      ResetSound(s.(difficulty := 1), ticks);
      ResetSound(s.(difficulty := 2), ticks);
    case Draw(ticks) =>
      if !s.over && s.body != [] {
        MoveSound(s.(moved := ticks));
      }
  }

  /** In every reachable state of a started game the body lies in the grid without touching itself, neighbours one step
      apart, the direction is a unit vector, and the length follows the score. */
  lemma {:induction false} RunSound(s: Snake, events: seq<Event>)
    requires Sound(s)
    ensures Sound(Run(s, events))
    decreases |events|
  {
    if events != [] {
      StepSound(s, events[0]);
      RunSound(Step(s, events[0]), events[1..]);
    }
  }

  lemma EveryGameSound(seed: nat, events: seq<Event>)
    ensures Sound(Run(Opening(seed), events))
  {
    RunSound(Opening(seed), events);
  }

  // ---- Steering ----

  /** A direction key, when it does not turn the snake back, sends the head one cell that way at the next move; up is
      towards row zero. */
  lemma KeySteers(s: Snake, k: nat, ticks: nat)
    requires Sound(s) && !s.over && Due(s, ticks)
    requires IsUp(k) || IsDown(k) || IsLeft(k) || IsRight(k)
    ensures var r := Run(s, [Key(k, ticks), Draw(ticks)]);
      var h := s.body[0];
      !r.over ==>
        && r.body != []
        && (IsUp(k) && s.dy != 1 ==> r.body[0] == Pos(h.x, Wrap(h.y - 1)))
        && (IsDown(k) && s.dy != -1 ==> r.body[0] == Pos(h.x, Wrap(h.y + 1)))
        && (IsLeft(k) && s.dx != 1 ==> r.body[0] == Pos(Wrap(h.x - 1), h.y))
        && (IsRight(k) && s.dx != -1 ==> r.body[0] == Pos(Wrap(h.x + 1), h.y))
  {
    hide PlaceFood, Due, Sound, Playing;
    var turned := Step(s, Key(k, ticks));
    RunTwo(s, Key(k, ticks), Draw(ticks));
    assert s.body != [] && InGrid(s.body[0]) by { HeadInGrid(s); }
    var moving := turned.(moved := ticks);
    assert Due(turned, ticks) by { DueSame(s, turned, ticks); }
    assert Step(turned, Draw(ticks)) == Move(moving);
    MovedHead(moving);
  }

  lemma DueSame(s: Snake, t: Snake, ticks: nat)
    requires Due(s, ticks) && s.moved == t.moved && s.difficulty == t.difficulty
    ensures Due(t, ticks)
  {
  }

  lemma HeadInGrid(s: Snake)
    requires Sound(s) && !s.over
    ensures s.body != [] && InGrid(s.body[0])
  {
    CellInGrid(s.body, s.body[0]);
  }

  lemma MovedHead(s: Snake)
    requires s.body != [] && !s.over
    ensures !Move(s).over ==> Move(s).body != [] && Move(s).body[0] == Front(s) && InGrid(Front(s))
  {
    hide Front, InGrid;
  }

  lemma RunTwo(s: Snake, a: Event, b: Event)
    ensures Run(s, [a, b]) == Step(Step(s, a), b)
  {
    hide Step;
    assert [a, b][1..] == [b] && [b][1..] == [];
    assert Run(s, [a, b]) == Run(Step(s, a), [b]);
  }

  // ---- The state the window keeps ----

  class Game {
    const body: array<Pos>
    var length: nat
    var dx: int
    var dy: int
    var food: Pos
    var score: nat
    var gameOver: bool
    var lastMoveTicks: nat
    var randSeed: nat
    var difficulty: nat
    var firstGame: bool

    ghost predicate Valid()
      reads this
    {
      body.Length == MAX_LENGTH && length < MAX_LENGTH && (!gameOver ==> length > 0)
    }

    ghost function Value(): Snake
      reads this, body
      requires Valid()
    {
      Snake(body[..length], dx, dy, food, score, gameOver, lastMoveTicks, randSeed, difficulty, firstGame)
    }

    constructor (seed: nat)
      ensures Valid() && fresh(body) && Value() == Opening(seed)
    {
      body := new Pos[MAX_LENGTH](i => Pos(0, 0));
      length, dx, dy, food, score, gameOver := 0, 0, 0, Pos(0, 0), 0, true;
      lastMoveTicks, randSeed, difficulty, firstGame := 0, seed, 0, true;
    }

    method Rand() returns (r: nat)
      modifies this`randSeed
      ensures randSeed == NextSeed(old(randSeed)) && r == randSeed / 65536 % 32768
    {
      randSeed := (randSeed * 1103515245 + 12345) % WORD;
      r := randSeed / 65536 % 32768;
    }

    method DropFood()
      requires Valid()
      modifies this`randSeed, this`food
      ensures Valid() && Value() == PlaceFood(old(Value()))
    {
      var a := Rand();
      var b := Rand();
      food := Pos(a % GRID, b % GRID);
    }

    /** Three cells, the head in the middle of the grid. */
    method LayBody()
      requires Valid()
      modifies this`length, body
      ensures length == 3
      ensures body[..3] == [Pos(GRID / 2, GRID / 2), Pos(GRID / 2 - 1, GRID / 2), Pos(GRID / 2 - 2, GRID / 2)]
    {
      length := 3;
      body[0] := Pos(GRID / 2, GRID / 2);
      body[1] := Pos(body[0].x - 1, body[0].y);
      body[2] := Pos(body[1].x - 1, body[1].y);
    }

    method Restart(ticks: nat)
      requires Valid()
      modifies this, body
      ensures Valid() && Value() == Reset(old(Value()), ticks)
    {
      hide PlaceFood;
      LayBody();
      dx, dy, score, gameOver, firstGame := 1, 0, 0, false, false;
      lastMoveTicks := ticks;
      DropFood();
    }

    method OnKey(key: nat, ticks: nat)
      requires Valid()
      modifies this, body
      ensures Valid() && Value() == Step(old(Value()), Key(key, ticks))
    {
      hide Reset;
      if gameOver {
        if key == 'r' as nat || key == 'R' as nat || key % 256 == 13 {
          Restart(ticks);
        }
        if key == '1' as nat {
          difficulty := 0;
          Restart(ticks);
        }
        if key == '2' as nat {
          difficulty := 1;
          Restart(ticks);
        }
        if key == '3' as nat {
          difficulty := 2;
          Restart(ticks);
        }
        return;
      }
      if IsUp(key) && dy != 1 {
        dx, dy := 0, -1;
      } else if IsDown(key) && dy != -1 {
        dx, dy := 0, 1;
      } else if IsLeft(key) && dx != 1 {
        dx, dy := -1, 0;
      } else if IsRight(key) && dx != -1 {
        dx, dy := 1, 0;
      }
    }

    /** Whether the body lies on a cell. */
    method Bites(p: Pos) returns (hit: bool)
      requires Valid()
      ensures hit <==> p in body[..length]
    {
      var i := 0;
      while i < length
        invariant 0 <= i <= length
        invariant p !in body[..i]
      {
        if body[i] == p {
          return true;
        }
        i := i + 1;
      }
      return false;
    }

    /** Shift the body back by one and put a new head in front. */
    method Shift(p: Pos)
      requires Valid()
      modifies body
      ensures body[..length + 1] == [p] + old(body[..length])
    {
      var i := length;
      while i > 0
        invariant 0 <= i <= length
        invariant forall k :: i < k <= length ==> body[k] == old(body[k - 1])
        invariant forall k :: 0 <= k <= i && k < length ==> body[k] == old(body[k])
      {
        body[i] := body[i - 1];
        i := i - 1;
      }
      body[0] := p;
    }

    method Advance()
      requires Valid() && !gameOver
      modifies this, body
      ensures Valid() && Value() == Move(old(Value()))
    {
      hide PlaceFood;
      var nextX, nextY := body[0].x + dx, body[0].y + dy;
      if nextX < 0 || nextX >= GRID || nextY < 0 || nextY >= GRID {
        if difficulty == 0 {
          if nextX < 0 {
            nextX := GRID - 1;
          } else if nextX >= GRID {
            nextX := 0;
          }
          if nextY < 0 {
            nextY := GRID - 1;
          } else if nextY >= GRID {
            nextY := 0;
          }
        } else {
          gameOver := true;
          return;
        }
      }
      assert Pos(nextX, nextY) == old(Front(Value()));
      var hit := Bites(Pos(nextX, nextY));
      if hit {
        gameOver := true;
        return;
      }
      Take(Pos(nextX, nextY));
    }

    /** Move the head to a free cell of the grid, eating what lies there. */
    method Take(p: Pos)
      requires Valid() && !gameOver
      requires InGrid(p) && p !in body[..length] && p == Front(Value())
      modifies this, body
      ensures Valid() && Value() == Move(old(Value()))
    {
      hide PlaceFood, Front, InGrid;
      var eating := p == food;
      Shift(p);
      assert body[..length + 1] == [p] + old(body[..length]);
      assert old(body[..length])[..length - 1] == old(body[..length - 1]);
      assert body[..length] == body[..length + 1][..length] == [p] + old(body[..length - 1]);
      if eating {
        if length < MAX_LENGTH - 1 {
          length := length + 1;
        }
        score := score + 10;
        DropFood();
      }
    }

    method OnDraw(ticks: nat)
      requires Valid()
      modifies this, body
      ensures Valid() && Value() == Step(old(Value()), Draw(ticks))
    {
      hide Move;
      var moveDelay := if difficulty == 2 then 4 else 8;
      if !gameOver && (ticks - lastMoveTicks) % WORD > moveDelay {
        lastMoveTicks := ticks;
        Advance();
      }
    }
  }
}
