/** What each event does to the scrollback viewer, cell by cell. */
module ScrollbackRules {
  import opened Scrollback
  import opened Wrappers

  /** Scrolling the display keeps its top row behind the others; handing over a line keeps that one. At 501 the oldest
      goes. Nothing else changes. */
  lemma LinesGrow(v: View, row: Row, x: nat)
    requires Sound(v) && x < 80
    ensures var r := Step(v, Capture);
      && r == v.(lines := r.lines) && GrownBy(v.lines, r.lines) && r.lines[|r.lines| - 1][x] == v.screen[x]
    ensures var r := Step(v, SaveLine(row));
      && r == v.(lines := r.lines) && GrownBy(v.lines, r.lines) && r.lines[|r.lines| - 1] == row
  {
  }

  /** One line more at the end, and the first one gone when there were 500. */
  predicate GrownBy(a: seq<Row>, b: seq<Row>) {
    && |b| == (if |a| < 500 then |a| + 1 else |a|) && b != []
    && forall i | 0 <= i < |b| - 1 :: i + (if |a| < 500 then 0 else 1) < |a| && b[i] == a[i + if |a| < 500 then 0 else 1]
  }

  /** Five rows up at most, down to the oldest line; the first step sets the screen aside. */
  lemma UpMoves(v: View)
    requires Sound(v)
    ensures var r := Step(v, Up);
      && r.lines == v.lines
      && r.offset == (if v.offset + 5 <= |v.lines| then v.offset + 5 else |v.lines|)
      && (v.offset == 0 && v.lines != [] ==> r.saved == Some(v.screen))
      && (v.offset > 0 || v.lines == [] ==> r.saved == v.saved)
      && (r.offset == v.offset ==> r.screen == v.screen)
  {
    hide Drawn;
  }

  /** Five rows down, and back to the live screen within five of it. */
  lemma DownMoves(v: View)
    requires Sound(v)
    ensures var r := Step(v, Down);
      && r.lines == v.lines
      && r.offset == (if v.offset > 5 then v.offset - 5 else 0)
      && (v.offset > 5 ==> r.saved == v.saved)
      && (0 < v.offset <= 5 ==> r.saved == None && Some(r.screen) == v.saved)
      && (v.offset == 0 ==> r == v)
    ensures var r := Step(v, Reset);
      && r.lines == v.lines && r.offset == 0 && r.saved == None
      && (if v.offset > 0 then Some(r.screen) == v.saved else r == v)
  {
    hide Drawn;
  }

  /** The page: line by line what is kept, and below it the screen in rows of eighty. */
  lemma PageIs(lines: seq<Row>, live: Screen, i: nat, x: nat)
    requires i < |lines| + 25 && x < 80
    ensures Page(lines, live, i)[x] == if i < |lines| then lines[i][x] else live[(i - |lines|) * 80 + x]
  {
  }
}
