/** The scrollback viewer: the lines kept, the part of them shown, and the screen set aside meanwhile. */
module Scrollback {
  import opened Wrappers

  const LINES := 500
  const WIDTH := 80
  const HEIGHT := 25
  const CELLS := 2000
  const BLANK := 0x0720
  const UP_MARK := 0x4E5E
  const DOWN_MARK := 0x4E76

  /** Character and attribute cells. */
  type Row = r: seq<nat> | |r| == WIDTH witness seq(WIDTH, _ => 0)

  type Screen = s: seq<nat> | |s| == CELLS witness seq(CELLS, _ => 0)

  datatype View = View(lines: seq<Row>, offset: nat, screen: Screen, saved: Option<Screen>)

  /** The display scrolls, a line is handed over, something is printed, or the user moves the view. */
  datatype Event = Capture | SaveLine(row: Row) | Print(screen: Screen) | Up | Down | Reset

  /** The last 500 lines. */
  function Keep(lines: seq<Row>): (r: seq<Row>)
    ensures |r| <= LINES
  {
    if |lines| <= LINES then lines else lines[|lines| - LINES..]
  }

  function TopRow(s: Screen): Row {
    s[..WIDTH]
  }

  /** What a redraw puts at row `y`, column `x`, before the marks. */
  function Base(v: View, y: nat, x: nat): nat
    requires y < HEIGHT && x < WIDTH
  {
    var i := |v.lines| - v.offset + y;
    if i < 0 then BLANK
    else if i < |v.lines| then v.lines[i][x]
    else if i - |v.lines| < HEIGHT && v.saved.Some? then v.saved.value[(i - |v.lines|) * WIDTH + x]
    else v.screen[y * WIDTH + x]
  }

  function Drawn(v: View, k: nat): nat
    requires k < CELLS
  {
    if v.offset > 0 && k == WIDTH - 1 then UP_MARK
    else if v.offset > 0 && k == CELLS - 1 then DOWN_MARK
    else Base(v, k / WIDTH, k % WIDTH)
  }

  function Redrawn(v: View): View {
    if v.lines == [] then v else v.(screen := seq(CELLS, k requires 0 <= k < CELLS => Drawn(v, k)))
  }

  function SetAside(v: View): View {
    if v.saved.Some? then v else v.(saved := Some(v.screen))
  }

  function Restored(v: View): View {
    if v.saved.Some? then v.(screen := v.saved.value, saved := None) else v
  }

  function Step(v: View, e: Event): View {
    match e
    case Capture => v.(lines := Keep(v.lines + [TopRow(v.screen)]))
    case SaveLine(row) => v.(lines := Keep(v.lines + [row]))
    case Print(screen) => v.(screen := screen)
    case Up =>
      if v.lines == [] then v
      else
        var w := if v.offset == 0 then SetAside(v) else v;
        if w.offset < |w.lines|
        then Redrawn(w.(offset := if w.offset + 5 > |w.lines| then |w.lines| else w.offset + 5))
        else w
    case Down =>
      if v.offset > 5 then Redrawn(v.(offset := v.offset - 5))
      else if v.offset > 0 then Restored(v.(offset := 0))
      else v
    case Reset => if v.offset > 0 then Restored(v.(offset := 0)) else v
  }

  function Run(v: View, events: seq<Event>): View
    decreases |events|
  {
    if events == [] then v else Run(Step(v, events[0]), events[1..])
  }

  // ---- What every run keeps ----

  predicate Sound(v: View) {
    v.offset <= |v.lines| <= LINES && (v.saved.Some? <==> v.offset > 0)
  }

  lemma StepSound(v: View, e: Event)
    requires Sound(v)
    ensures Sound(Step(v, e))
  {
    hide Drawn, Base, TopRow;
  }

  lemma {:induction false} RunSound(v: View, events: seq<Event>)
    requires Sound(v)
    ensures Sound(Run(v, events))
    decreases |events|
  {
    if events != [] {
      StepSound(v, events[0]);
      RunSound(Step(v, events[0]), events[1..]);
    }
  }

  // ---- The lines kept ----

  /** The lines a run hands over, in order. */
  function Log(v: View, events: seq<Event>): seq<Row>
    decreases |events|
  {
    if events == [] then []
    else
      (match events[0]
       case Capture => [TopRow(v.screen)]
       case SaveLine(row) => [row]
       case _ => []) + Log(Step(v, events[0]), events[1..])
  }

  lemma KeepTwice(a: seq<Row>, b: seq<Row>)
    ensures Keep(Keep(a) + b) == Keep(a + b)
  {
  }

  lemma StepLines(v: View, e: Event)
    requires Sound(v)
    ensures Step(v, e).lines == match e
      case Capture => Keep(v.lines + [TopRow(v.screen)])
      case SaveLine(row) => Keep(v.lines + [row])
      case _ => v.lines
  {
    hide Drawn, Base, TopRow, Keep;
  }

  /** After any run the buffer holds exactly the last 500 of the lines handed over, oldest first. */
  lemma {:induction false} LinesAreLast(v: View, events: seq<Event>)
    requires Sound(v)
    ensures Run(v, events).lines == Keep(v.lines + Log(v, events))
    decreases |events|
  {
    hide Step, TopRow;
    if events == [] {
      assert v.lines + [] == v.lines;
    } else {
      var e, rest := events[0], events[1..];
      var first: seq<Row> := match e case Capture => [TopRow(v.screen)] case SaveLine(row) => [row] case _ => [];
      StepLines(v, e);
      StepSound(v, e);
      LinesAreLast(Step(v, e), rest);
      assert v.lines + [] == v.lines;
      assert Step(v, e).lines == Keep(v.lines + first);
      KeepTwice(v.lines + first, Log(Step(v, e), rest));
      assert v.lines + first + Log(Step(v, e), rest) == v.lines + (first + Log(Step(v, e), rest));
    }
  }

  // ---- What a redraw shows ----

  /** Row `y` of a screen. */
  function ScreenRow(s: Screen, y: nat): Row
    requires y < HEIGHT
  {
    s[y * WIDTH..(y + 1) * WIDTH]
  }

  /** The kept lines with the live screen below them. */
  function Page(lines: seq<Row>, live: Screen, i: nat): Row
    requires i < |lines| + HEIGHT
  {
    if i < |lines| then lines[i] else ScreenRow(live, i - |lines|)
  }

  /** A scrolled view shows the page from row count - offset on, all but the two marks at its right edge. */
  lemma ViewShowsPage(v: View, e: Event, y: nat, x: nat)
    requires Sound(v) && (e.Up? || e.Down?) && y < HEIGHT && x < WIDTH
    requires Step(v, e).offset > 0 && Step(v, e).offset != v.offset
    ensures var w := Step(v, e);
      && w.saved.Some?
      && w.screen[y * WIDTH + x] ==
           if x == WIDTH - 1 && y == 0 then UP_MARK
           else if x == WIDTH - 1 && y == HEIGHT - 1 then DOWN_MARK
           else Page(w.lines, w.saved.value, |w.lines| - w.offset + y)[x]
  {
    hide Keep, TopRow;
    StepSound(v, e);
    var w := Step(v, e);
    var k := y * WIDTH + x;
    assert k / WIDTH == y && k % WIDTH == x;
    assert w.screen[k] == Drawn(w, k) by { hide Base, Page, ScreenRow; RedrawnAt(v, e, k); }
    ShownAt(w, y, x);
  }

  lemma RedrawnAt(v: View, e: Event, k: nat)
    requires Sound(v) && (e.Up? || e.Down?) && k < CELLS
    requires Step(v, e).offset > 0 && Step(v, e).offset != v.offset
    ensures Step(v, e).screen[k] == Drawn(Step(v, e), k)
  {
    hide TopRow, Keep;
    var w := if e.Up? && v.offset == 0 then SetAside(v) else v;
    var u := w.(offset := Step(v, e).offset);
    assert Step(v, e) == Redrawn(u);
    DrawnSame(u, Step(v, e), k);
  }

  /** Away from the screen itself a redraw depends on nothing it changes. */
  lemma DrawnSame(u: View, w: View, k: nat)
    requires u.(screen := w.screen) == w && k < CELLS && Sound(u) && u.offset > 0
    ensures Drawn(u, k) == Drawn(w, k)
  {
  }

  lemma ShownAt(w: View, y: nat, x: nat)
    requires Sound(w) && w.offset > 0 && y < HEIGHT && x < WIDTH
    ensures Base(w, y, x) == Page(w.lines, w.saved.value, |w.lines| - w.offset + y)[x]
  {
  }

  // ---- Returning to the live screen ----

  /** The view stays scrolled through all the events. */
  predicate StaysScrolled(v: View, events: seq<Event>)
    decreases |events|
  {
    v.offset > 0 && (events == [] || StaysScrolled(Step(v, events[0]), events[1..]))
  }

  lemma StepKeepsSaved(v: View, e: Event)
    requires Sound(v) && v.offset > 0
    ensures Step(v, e).offset > 0 ==> Step(v, e).saved == v.saved
    ensures Step(v, e).offset == 0 ==> Step(v, e).screen == v.saved.value
  {
    hide Drawn, Base, TopRow, Keep;
  }

  lemma {:induction false} ScrolledKeepsSaved(v: View, events: seq<Event>)
    requires Sound(v) && StaysScrolled(v, events)
    ensures Run(v, events).offset > 0 && Run(v, events).saved == v.saved && Sound(Run(v, events))
    decreases |events|
  {
    hide Step;
    if events != [] {
      StepKeepsSaved(v, events[0]);
      StepSound(v, events[0]);
      ScrolledKeepsSaved(Step(v, events[0]), events[1..]);
    }
  }

  /** Whatever happens while the view is scrolled, coming back shows the screen exactly as it was left. */
  lemma LiveScreenRestored(v: View, events: seq<Event>, last: Event)
    requires Sound(v) && v.offset == 0
    requires StaysScrolled(Step(v, Up), events)
    requires Step(Run(Step(v, Up), events), last).offset == 0
    ensures Step(Run(Step(v, Up), events), last).screen == v.screen
  {
    hide Drawn, Base, TopRow, Keep, Run, Step;
    StepSound(v, Up);
    ScrolledKeepsSaved(Step(v, Up), events);
    StepKeepsSaved(Run(Step(v, Up), events), last);
    UpSetsAside(v);
  }

  lemma UpSetsAside(v: View)
    requires Sound(v) && v.offset == 0 && Step(v, Up).offset > 0
    ensures Step(v, Up).saved == Some(v.screen)
  {
    hide Drawn, Base, TopRow, Keep;
  }
}
