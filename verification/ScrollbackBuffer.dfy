/** The scrollback ring, the saved screen and the text memory, updated in place. */
module ScrollbackBuffer {
  import opened Scrollback
  import opened Wrappers

  /** The ring slot of kept line `i`, with `count` lines kept and the next one due at `pos`. */
  function Slot(pos: nat, count: nat, i: nat): nat
    requires count <= LINES
  {
    (pos + LINES - count + i) % LINES
  }

  class Buffer {
    const ring: array2<nat>
    var writePos: nat
    var count: nat
    var scrollOffset: int
    const savedScreen: array<nat>
    var screenSaved: bool
    const vga: array<nat>
    ghost var lines: seq<Row>

    ghost predicate Shaped()
      reads this
    {
      && ring.Length0 == LINES && ring.Length1 == WIDTH
      && savedScreen.Length == CELLS && vga.Length == CELLS && savedScreen != vga
      && writePos < LINES && count == |lines| <= LINES && 0 <= scrollOffset
    }

    /** The ring holds the kept lines. */
    ghost predicate Valid()
      reads this, ring
    {
      && Shaped()
      && forall i, x :: 0 <= i < |lines| && 0 <= x < WIDTH ==> ring[Slot(writePos, count, i), x] == lines[i][x]
    }

    ghost function Value(): View
      reads this, savedScreen, vga
      requires Shaped()
    {
      View(lines, scrollOffset, vga[..], if screenSaved then Some(savedScreen[..]) else None)
    }

    constructor ()
      ensures Valid() && Value().lines == [] && Value().offset == 0 && Value().saved == None
      ensures fresh(ring) && fresh(savedScreen) && fresh(vga)
    {
      ring := new nat[LINES, WIDTH];
      savedScreen := new nat[CELLS];
      vga := new nat[CELLS];
      writePos, count, scrollOffset, screenSaved, lines := 0, 0, 0, false, [];
    }

    method SaveCurrentScreen()
      requires Valid()
      modifies this`screenSaved, savedScreen
      ensures Valid() && Value() == SetAside(old(Value()))
    {
      if screenSaved {
        return;
      }
      CopyCells(vga, savedScreen);
      screenSaved := true;
    }

    method RestoreSavedScreen()
      requires Valid()
      modifies this`screenSaved, vga
      ensures Valid() && Value() == Restored(old(Value()))
    {
      if !screenSaved {
        return;
      }
      CopyCells(savedScreen, vga);
      screenSaved := false;
    }

    static method CopyCells(from: array<nat>, to: array<nat>)
      requires from.Length == to.Length == CELLS && from != to
      modifies to
      ensures to[..] == from[..]
    {
      var y := 0;
      while y < HEIGHT
        invariant 0 <= y <= HEIGHT
        invariant to[..y * WIDTH] == from[..y * WIDTH]
      {
        var x := 0;
        while x < WIDTH
          invariant 0 <= x <= WIDTH
          invariant to[..y * WIDTH + x] == from[..y * WIDTH + x]
        {
          to[y * WIDTH + x] := from[y * WIDTH + x];
          x := x + 1;
        }
        y := y + 1;
      }
    }

    /** Make the row just written at the write position the newest line. */
    method Advance(ghost row: Row)
      requires Shaped()
      requires forall x :: 0 <= x < WIDTH ==> ring[writePos, x] == row[x]
      requires forall i, x :: 0 <= i < |lines| && (count < LINES || i > 0) && 0 <= x < WIDTH ==>
        ring[Slot(writePos, count, i), x] == lines[i][x]
      modifies this`writePos, this`count, this`lines
      ensures Valid() && lines == Keep(old(lines) + [row])
    {
      ghost var was := lines;
      lines := Keep(lines + [row]);
      writePos := (writePos + 1) % LINES;
      if count < LINES {
        count := count + 1;
      }
      forall i, x | 0 <= i < |lines| && 0 <= x < WIDTH ensures ring[Slot(writePos, count, i), x] == lines[i][x] {
        if i == |lines| - 1 {
          assert Slot(writePos, count, i) == old(writePos);
        } else if old(count) < LINES {
          assert Slot(writePos, count, i) == Slot(old(writePos), old(count), i);
          assert lines[i] == was[i];
        } else {
          assert Slot(writePos, count, i) == Slot(old(writePos), old(count), i + 1);
          assert lines[i] == was[i + 1];
        }
      }
    }

    /** Only the oldest line of a full ring lies at the write position. */
    static lemma WriteSlotFree(pos: nat, count: nat, i: nat)
      requires pos < LINES && i < count <= LINES && (count < LINES || i > 0)
      ensures Slot(pos, count, i) != pos
    {
    }

    method CaptureLine()
      requires Valid()
      modifies this`writePos, this`count, this`lines, ring
      ensures Valid() && Value() == Step(old(Value()), Capture)
    {
      ghost var row: Row := TopRow(vga[..]);
      var x := 0;
      while x < WIDTH
        invariant 0 <= x <= WIDTH
        invariant forall j :: 0 <= j < x ==> ring[writePos, j] == row[j]
        invariant forall s, j :: 0 <= s < LINES && s != writePos && 0 <= j < WIDTH ==> ring[s, j] == old(ring[s, j])
        modifies ring
      {
        ring[writePos, x] := vga[x];
        x := x + 1;
      }
      forall i | 0 <= i < |lines| && (count < LINES || i > 0) ensures Slot(writePos, count, i) != writePos {
        WriteSlotFree(writePos, count, i);
      }
      Advance(row);
    }

    /** A line handed over as characters and attributes; either may be missing. */
    method SaveLineOf(line: Option<Row>, attrs: Option<Row>)
      requires Valid()
      modifies this`writePos, this`count, this`lines, ring
      ensures Valid() && Value() == Step(old(Value()), SaveLine(Cells(line, attrs)))
    {
      ghost var row: Row := Cells(line, attrs);
      var x := 0;
      while x < WIDTH
        invariant 0 <= x <= WIDTH
        invariant forall j :: 0 <= j < x ==> ring[writePos, j] == row[j]
        invariant forall s, j :: 0 <= s < LINES && s != writePos && 0 <= j < WIDTH ==> ring[s, j] == old(ring[s, j])
        modifies ring
      {
        var ch := if line.Some? then line.value[x] else ' ' as nat;
        var at := if attrs.Some? then attrs.value[x] else 0x07;
        ring[writePos, x] := at * 256 + ch;
        x := x + 1;
      }
      forall i | 0 <= i < |lines| && (count < LINES || i > 0) ensures Slot(writePos, count, i) != writePos {
        WriteSlotFree(writePos, count, i);
      }
      Advance(row);
    }

    method Redraw()
      requires Valid()
      modifies vga
      ensures Value() == Redrawn(old(Value()))
    {
      if count == 0 {
        return;
      }
      ghost var was := Value();
      var viewStart := count - scrollOffset;
      var y := 0;
      while y < HEIGHT
        invariant 0 <= y <= HEIGHT
        invariant forall k :: 0 <= k < CELLS ==> vga[k] == if k < y * WIDTH then Base(was, k / WIDTH, k % WIDTH) else was.screen[k]
      {
        RedrawRow(y, viewStart + y, was);
        y := y + 1;
      }
      if scrollOffset > 0 {
        vga[0 * WIDTH + 79] := UP_MARK;
        vga[24 * WIDTH + 79] := DOWN_MARK;
      }
      assert vga[..] == Redrawn(was).screen;
    }

    /** One row of a redraw. */
    method RedrawRow(y: nat, lineIdx: int, ghost was: View)
      requires Valid() && y < HEIGHT && lineIdx == count - scrollOffset + y
      requires was.lines == lines && was.offset == scrollOffset
      requires was.saved == if screenSaved then Some(savedScreen[..]) else None
      requires forall k :: y * WIDTH <= k < CELLS ==> vga[k] == was.screen[k]
      modifies vga
      ensures forall k :: 0 <= k < CELLS ==> vga[k] == if k / WIDTH == y then Base(was, y, k % WIDTH) else old(vga[k])
    {
      if lineIdx < 0 {
        var x := 0;
        while x < WIDTH
          invariant 0 <= x <= WIDTH
          invariant forall k :: 0 <= k < CELLS ==>
            vga[k] == if k / WIDTH == y && k % WIDTH < x then Base(was, y, k % WIDTH) else old(vga[k])
        {
          vga[y * WIDTH + x] := BLANK;
          x := x + 1;
        }
      } else if lineIdx < count {
        var bufIdx := (writePos + LINES - count + lineIdx) % LINES;
        assert bufIdx == Slot(writePos, count, lineIdx);
        var x := 0;
        while x < WIDTH
          invariant 0 <= x <= WIDTH
          invariant forall k :: 0 <= k < CELLS ==>
            vga[k] == if k / WIDTH == y && k % WIDTH < x then Base(was, y, k % WIDTH) else old(vga[k])
        {
          vga[y * WIDTH + x] := ring[bufIdx, x];
          x := x + 1;
        }
      } else {
        var screenY := lineIdx - count;
        if screenY < HEIGHT && screenSaved {
          var x := 0;
          while x < WIDTH
            invariant 0 <= x <= WIDTH
            invariant forall k :: 0 <= k < CELLS ==>
              vga[k] == if k / WIDTH == y && k % WIDTH < x then Base(was, y, k % WIDTH) else old(vga[k])
          {
            vga[y * WIDTH + x] := savedScreen[screenY * WIDTH + x];
            x := x + 1;
          }
        }
      }
    }

    method ScrollUp()
      requires Valid()
      modifies this`scrollOffset, this`screenSaved, savedScreen, vga
      ensures Valid() && Value() == Step(old(Value()), Up)
    {
      hide Drawn;
      if count == 0 {
        return;
      }
      if scrollOffset == 0 {
        SaveCurrentScreen();
      }
      if scrollOffset < count {
        scrollOffset := scrollOffset + 5;
        if scrollOffset > count {
          scrollOffset := count;
        }
        Redraw();
      }
    }

    method ScrollDown()
      requires Valid()
      modifies this`scrollOffset, this`screenSaved, vga
      ensures Valid() && Value() == Step(old(Value()), Down)
    {
      hide Drawn;
      if scrollOffset > 0 {
        scrollOffset := scrollOffset - 5;
        if scrollOffset <= 0 {
          scrollOffset := 0;
          RestoreSavedScreen();
        } else {
          Redraw();
        }
      }
    }

    method ResetScroll()
      requires Valid()
      modifies this`scrollOffset, this`screenSaved, vga
      ensures Valid() && Value() == Step(old(Value()), Reset)
    {
      if scrollOffset > 0 {
        scrollOffset := 0;
        RestoreSavedScreen();
      }
    }
  }

  /** Character and attribute bytes as cells; a blank where there is no line, grey where there are no attributes. */
  function Cells(line: Option<Row>, attrs: Option<Row>): Row {
    seq(WIDTH, x requires 0 <= x < WIDTH =>
      (if attrs.Some? then attrs.value[x] else 0x07) * 256 + (if line.Some? then line.value[x] else ' ' as nat))
  }
}
