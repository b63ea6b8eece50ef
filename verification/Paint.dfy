/** Paint's brush and the integer line it drags the brush along. */
module Paint {
  const WIDTH := 36
  const HEIGHT := 28

  // ---- The line ----

  datatype Line = Line(x0: int, y0: int, x1: int, y1: int)

  /** The point being plotted and the running error. */
  datatype Pen = Pen(x: int, y: int, err: int)

  function Abs(n: int): int {
    if n < 0 then -n else n
  }

  function Dx(l: Line): int { Abs(l.x1 - l.x0) }

  function Dy(l: Line): int { Abs(l.y1 - l.y0) }

  function Sx(l: Line): int { if l.x0 < l.x1 then 1 else -1 }

  function Sy(l: Line): int { if l.y0 < l.y1 then 1 else -1 }

  function Long(l: Line): int {
    if Dx(l) > Dy(l) then Dx(l) else Dy(l)
  }

  /** Half the longer side, signed by which side it is; halving truncates. */
  function FirstErr(l: Line): int {
    if Dx(l) > Dy(l) then Dx(l) / 2 else -(Dy(l) / 2)
  }

  function Step(l: Line, p: Pen): Pen {
    var p1 := if p.err > -Dx(l) then Pen(p.x + Sx(l), p.y, p.err - Dy(l)) else p;
    if p.err < Dy(l) then Pen(p1.x, p1.y + Sy(l), p1.err + Dx(l)) else p1
  }

  /** The pen after `k` rounds of the loop. */
  function PenAt(l: Line, k: nat): Pen {
    if k == 0 then Pen(l.x0, l.y0, FirstErr(l)) else Step(l, PenAt(l, k - 1))
  }

  /** How far the pen has gone along each axis. */
  function AlongX(l: Line, k: nat): int { (PenAt(l, k).x - l.x0) * Sx(l) }

  function AlongY(l: Line, k: nat): int { (PenAt(l, k).y - l.y0) * Sy(l) }

  /** The longer axis advances every round, and the error stays inside one step of it. */
  predicate OnTrack(l: Line, k: nat) {
    && PenAt(l, k).err == FirstErr(l) - AlongX(l, k) * Dy(l) + AlongY(l, k) * Dx(l)
    && (Dx(l) > Dy(l) ==> AlongX(l, k) == k && 0 <= PenAt(l, k).err < Dx(l))
    && (Dx(l) <= Dy(l) ==> AlongY(l, k) == k && (Dy(l) > 0 ==> -Dy(l) < PenAt(l, k).err <= 0))
    && 0 <= AlongX(l, k) <= k && 0 <= AlongY(l, k) <= k
  }

  lemma {:induction false} StaysOnTrack(l: Line, k: nat)
    requires k <= Long(l)
    ensures OnTrack(l, k)
  {
    if k > 0 {
      StaysOnTrack(l, k - 1);
      Advance(l, k - 1);
    }
  }

  /** One round, as the distances along the axes see it. */
  lemma Moves(l: Line, k: nat)
    ensures AlongX(l, k + 1) == AlongX(l, k) + if PenAt(l, k).err > -Dx(l) then 1 else 0
    ensures AlongY(l, k + 1) == AlongY(l, k) + if PenAt(l, k).err < Dy(l) then 1 else 0
    ensures PenAt(l, k + 1).err == PenAt(l, k).err - (if PenAt(l, k).err > -Dx(l) then Dy(l) else 0)
                                                   + (if PenAt(l, k).err < Dy(l) then Dx(l) else 0)
  {
    hide Dx, Dy;
  }

  lemma Advance(l: Line, k: nat)
    requires OnTrack(l, k) && Long(l) > 0
    ensures OnTrack(l, k + 1)
  {
    hide PenAt, AlongX, AlongY, FirstErr;
    Moves(l, k);
    var i, j := AlongX(l, k), AlongY(l, k);
    Distribute(i, Dy(l));
    Distribute(j, Dx(l));
  }

  lemma Distribute(n: int, m: int)
    ensures (n + 1) * m == n * m + m
  {
  }

  /** Within half a cell of the ideal line, measured along the shorter axis. */
  predicate Near(l: Line, i: int, j: int) {
    -Long(l) <= 2 * (j * Dx(l) - i * Dy(l)) <= Long(l)
  }

  lemma StaysNear(l: Line, k: nat)
    requires k <= Long(l)
    ensures Near(l, AlongX(l, k), AlongY(l, k))
    ensures 0 <= AlongX(l, k) <= Dx(l) && 0 <= AlongY(l, k) <= Dy(l)
    ensures k == Long(l) ==> AlongX(l, k) == Dx(l) && AlongY(l, k) == Dy(l)
  {
    StaysOnTrack(l, k);
    var i, j := AlongX(l, k), AlongY(l, k);
    if Dx(l) > Dy(l) {
      Bounded(i, j, Dx(l), Dy(l));
    } else if Dy(l) > 0 {
      Bounded(j, i, Dy(l), Dx(l));
    }
  }

  lemma TimesLe(a: int, b: int, c: int)
    requires a <= b && 0 <= c
    ensures a * c <= b * c
  {
  }

  /** Being near the line keeps the shorter axis inside its length, and fixes it at the end. */
  lemma Bounded(i: int, j: int, long: int, short: int)
    requires 0 <= i <= long && 0 <= j && 0 <= short <= long && long > 0
    requires -long <= 2 * (j * long - i * short) <= long
    ensures j <= short && (i == long ==> j == short)
  {
    TimesLe(i, long, short);
    if j > short {
      TimesLe(short + 1, j, long);
      Distribute(short, long);
    } else if j < short {
      TimesLe(j, short - 1, long);
      Distribute(short - 1, long);
    }
  }

  // ---- The cells of a line ----

  datatype Cell = Cell(x: int, y: int)

  function CellAt(l: Line, k: nat): Cell {
    Cell(PenAt(l, k).x, PenAt(l, k).y)
  }

  predicate Neighbours(a: Cell, b: Cell) {
    a != b && Abs(a.x - b.x) <= 1 && Abs(a.y - b.y) <= 1
  }

  predicate NearLine(l: Line, c: Cell) {
    Near(l, (c.x - l.x0) * Sx(l), (c.y - l.y0) * Sy(l))
  }

  /** The loop ends exactly when the longer side has been walked, in every octant. */
  lemma EndsAt(l: Line, k: nat)
    requires k <= Long(l)
    ensures CellAt(l, k) == Cell(l.x1, l.y1) <==> k == Long(l)
  {
    hide PenAt;
    StaysOnTrack(l, k);
    StaysNear(l, k);
    assert Sx(l) == 1 || Sx(l) == -1;
    assert Sy(l) == 1 || Sy(l) == -1;
  }

  /** Plotting the cells 0 to max(dx, dy) gives an 8-connected path from one end to the other, no cell of which is more
      than half a cell away from the ideal line along the shorter axis. */
  lemma LineIsStraight(l: Line, k: nat)
    requires k <= Long(l)
    ensures CellAt(l, 0) == Cell(l.x0, l.y0)
    ensures CellAt(l, k) == Cell(l.x1, l.y1) <==> k == Long(l)
    ensures k < Long(l) ==> Neighbours(CellAt(l, k), CellAt(l, k + 1))
    ensures NearLine(l, CellAt(l, k))
  {
    EndsAt(l, k);
    StaysNear(l, k);
    if k < Long(l) {
      StepMoves(l, k);
    }
  }

  lemma StepMoves(l: Line, k: nat)
    requires k < Long(l)
    ensures Neighbours(CellAt(l, k), CellAt(l, k + 1))
  {
    StaysOnTrack(l, k);
    StaysOnTrack(l, k + 1);
    PenMoves(l, k);
    hide PenAt;
  }

  lemma PenMoves(l: Line, k: nat)
    ensures Abs(PenAt(l, k + 1).x - PenAt(l, k).x) <= 1 && Abs(PenAt(l, k + 1).y - PenAt(l, k).y) <= 1
  {
  }

  // ---- The brush ----

  function Radius(size: int): int {
    if size < 1 then 0 else size - 1
  }

  /** The brush of a size held at (cx, cy) covers (x, y). */
  predicate Covers(size: int, cx: int, cy: int, x: int, y: int) {
    && Abs(x - cx) <= Radius(size) && Abs(y - cy) <= Radius(size)
    && (x - cx) * (x - cx) + (y - cy) * (y - cy) <= Radius(size) * Radius(size) + Radius(size)
  }

  /** A brush of size n covers the cells whose squared distance is at most n (n - 1); one of size 1 or less its own cell. */
  lemma BrushIs(size: int, cx: int, cy: int, x: int, y: int)
    ensures size >= 1 ==>
      (Covers(size, cx, cy, x, y) <==> (x - cx) * (x - cx) + (y - cy) * (y - cy) <= size * (size - 1))
    ensures size <= 1 ==> (Covers(size, cx, cy, x, y) <==> x == cx && y == cy)
  {
    if size <= 1 {
      assert Radius(size) == 0;
      Square(x - cx, 0);
      Square(y - cy, 0);
    } else {
      Square(x - cx, size - 1);
      Square(y - cy, size - 1);
      assert size * (size - 1) == (size - 1) * (size - 1) + (size - 1);
    }
  }

  /** A square of at most r (r + 1) has a root of at most r. */
  lemma Square(d: int, r: nat)
    ensures d * d >= 0 && (Abs(d) > r ==> d * d > r * r + r)
  {
    if d > r {
      TimesLe(r + 1, d, d);
      TimesLe(r + 1, d, r + 1);
      assert (r + 1) * (r + 1) == r * r + r + r + 1;
    } else if -d > r {
      TimesLe(r + 1, -d, -d);
      TimesLe(r + 1, -d, r + 1);
      assert (r + 1) * (r + 1) == r * r + r + r + 1;
      assert (-d) * (-d) == d * d;
    }
  }

  /** One of the first `k` cells of the line has the brush over (x, y). */
  ghost predicate Touched(l: Line, k: nat, size: int, x: int, y: int) {
    exists j :: 0 <= j < k && Covers(size, CellAt(l, j).x, CellAt(l, j).y, x, y)
  }

  lemma TouchedNext(l: Line, k: nat, size: int, x: int, y: int)
    ensures Touched(l, k + 1, size, x, y)
      <==> Touched(l, k, size, x, y) || Covers(size, CellAt(l, k).x, CellAt(l, k).y, x, y)
  {
    hide Covers, CellAt;
  }

  class Canvas {
    const cells: array2<nat>
    var color: nat
    var brushSize: int
    var isDrawing: bool
    var lastX: int
    var lastY: int

    ghost predicate Valid()
      reads this
    {
      cells.Length0 == WIDTH && cells.Length1 == HEIGHT
    }

    constructor ()
      ensures Valid() && fresh(cells) && !isDrawing
    {
      cells := new nat[WIDTH, HEIGHT]((x, y) => 0xFFFFFFFF);
      color, brushSize, isDrawing, lastX, lastY := 0xFF000000, 1, false, 0, 0;
    }

    method PlotBrush(cx: int, cy: int)
      requires Valid()
      modifies cells
      ensures forall x, y :: 0 <= x < WIDTH && 0 <= y < HEIGHT ==>
        cells[x, y] == if Covers(brushSize, cx, cy, x, y) then color else old(cells[x, y])
    {
      var radius := brushSize - 1;
      if radius < 0 {
        radius := 0;
      }
      var r2 := radius * radius;
      var dy := -radius;
      while dy <= radius
        invariant -radius <= dy <= radius + 1
        invariant forall x, y :: 0 <= x < WIDTH && 0 <= y < HEIGHT ==>
          cells[x, y] == if Covers(brushSize, cx, cy, x, y) && y < cy + dy then color else old(cells[x, y])
      {
        var dx := -radius;
        while dx <= radius
          invariant -radius <= dx <= radius + 1
          invariant forall x, y :: 0 <= x < WIDTH && 0 <= y < HEIGHT ==>
            cells[x, y] == if Covers(brushSize, cx, cy, x, y) && (y < cy + dy || (y == cy + dy && x < cx + dx)) then color
                           else old(cells[x, y])
        {
          var px, py := cx + dx, cy + dy;
          assert dx * dx + dy * dy <= r2 + radius <==> Covers(brushSize, cx, cy, px, py);
          if dx * dx + dy * dy <= r2 + radius {
            if 0 <= px < WIDTH && 0 <= py < HEIGHT {
              cells[px, py] := color;
            }
          }
          dx := dx + 1;
        }
        dy := dy + 1;
      }
    }

    /** The mouse is at cell (cx, cy) with the button down: start a stroke, or draw the line from the last cell. */
    method Drag(cx: int, cy: int)
      requires Valid()
      modifies this`isDrawing, this`lastX, this`lastY, cells
      ensures isDrawing && lastX == cx && lastY == cy
      ensures var l := if old(isDrawing) then Line(old(lastX), old(lastY), cx, cy) else Line(cx, cy, cx, cy);
        forall x, y :: 0 <= x < WIDTH && 0 <= y < HEIGHT ==>
          cells[x, y] == if Touched(l, Long(l) + 1, brushSize, x, y) then color else old(cells[x, y])
    {
      if !isDrawing {
        isDrawing := true;
        ghost var l := Line(cx, cy, cx, cy);
        forall x, y ensures Touched(l, 1, brushSize, x, y) == Covers(brushSize, cx, cy, x, y) {
          TouchedNext(l, 0, brushSize, x, y);
        }
        PlotBrush(cx, cy);
      } else {
        DrawLine(lastX, lastY, cx, cy);
      }
      lastX, lastY := cx, cy;
    }

    method DrawLine(startX: int, startY: int, x1: int, y1: int)
      requires Valid()
      modifies cells
      ensures var l := Line(startX, startY, x1, y1);
        forall x, y :: 0 <= x < WIDTH && 0 <= y < HEIGHT ==>
          cells[x, y] == if Touched(l, Long(l) + 1, brushSize, x, y) then color else old(cells[x, y])
    {
      ghost var l := Line(startX, startY, x1, y1);
      var x0, y0 := startX, startY;
      var dx, sx := if x1 > x0 then x1 - x0 else x0 - x1, if x0 < x1 then 1 else -1;
      var dy, sy := if y1 > y0 then y1 - y0 else y0 - y1, if y0 < y1 then 1 else -1;
      var err := if dx > dy then dx / 2 else -(dy / 2);
      ghost var k := 0;
      while true
        invariant 0 <= k <= Long(l) && PenAt(l, k) == Pen(x0, y0, err)
        invariant forall x, y :: 0 <= x < WIDTH && 0 <= y < HEIGHT ==>
          cells[x, y] == if Touched(l, k, brushSize, x, y) then color else old(cells[x, y])
        decreases Long(l) - k
      {
        forall x, y
          ensures Touched(l, k + 1, brushSize, x, y)
               == (Touched(l, k, brushSize, x, y) || Covers(brushSize, x0, y0, x, y))
        {
          TouchedNext(l, k, brushSize, x, y);
        }
        PlotBrush(x0, y0);
        EndsAt(l, k);
        if x0 == x1 && y0 == y1 {
          break;
        }
        var e2 := err;
        if e2 > -dx {
          err := err - dy;
          x0 := x0 + sx;
        }
        if e2 < dy {
          err := err + dx;
          y0 := y0 + sy;
        }
        k := k + 1;
      }
    }

    method Lift()
      modifies this`isDrawing
      ensures !isDrawing
    {
      isDrawing := false;
    }
  }
}
