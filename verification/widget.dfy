/** The main window's input dispatch: which events it handles and what each
    one does to the drag state and to the scene. */
module Widget {
  import opened Geometry
  import opened SceneCalls
  import MouseDrag

  /** Qt key codes of the keys the window reacts to (`Qt::Key_Escape`,
      `Qt::Key_Left`, `Qt::Key_Right`). */
  const KeyEscape: int := 0x0100_0000
  const KeyLeft: int := 0x0100_0012
  const KeyRight: int := 0x0100_0014

  /** `keyPressEvent`: Escape closes the window, Left and Right page
      through the pictures, every other key is ignored. */
  function KeyActions(key: int): (acts: seq<Action>)
    ensures |acts| <= 1
    ensures acts == [CloseWindow] <==> key == KeyEscape
    ensures acts == [Scene(PrevBtnClicked)] <==> key == KeyLeft
    ensures acts == [Scene(NextBtnClicked)] <==> key == KeyRight
    ensures acts == [] <==> key !in {KeyEscape, KeyLeft, KeyRight}
  {
    if key == KeyEscape then [CloseWindow]
    else if key == KeyLeft then [Scene(PrevBtnClicked)]
    else if key == KeyRight then [Scene(NextBtnClicked)]
    else []
  }

  /** The events the model covers: mouse button down and up, one painted
      frame (which runs `logic`), and a key press. */
  datatype Event =
    | MousePressed(pos: Point)
    | MouseReleased(pos: Point)
    | Painted(sample: MouseDrag.CursorReads)
    | KeyPressed(key: int)

  datatype Outcome = Outcome(state: MouseDrag.DragState, actions: seq<Action>)

  function AsActions(calls: seq<SceneCall>): (acts: seq<Action>)
    ensures |acts| == |calls|
    ensures forall k :: 0 <= k < |calls| ==> acts[k] == Scene(calls[k])
  {
    if |calls| == 0 then [] else [Scene(calls[0])] + AsActions(calls[1..])
  }

  /** One event handled by the window. */
  function Step(st: MouseDrag.DragState, e: Event): (o: Outcome)
    ensures e.KeyPressed? ==> o.state == st && o.actions == KeyActions(e.key)
    ensures e.MousePressed? ==> o.state.pressed && o.state.prev == e.pos
    ensures e.MouseReleased? ==> !o.state.pressed && o.state.prev == st.prev
    ensures e.Painted? ==> o.state.pressed == st.pressed
    ensures e.Painted? ==> |o.actions| > 0 && o.actions[|o.actions| - 1] == Scene(Render)
  {
    match e
    case MousePressed(pos) =>
      var h := MouseDrag.Press(st, pos);
      Outcome(h.state, AsActions(h.calls))
    case MouseReleased(pos) =>
      var h := MouseDrag.Release(st, pos);
      Outcome(h.state, AsActions(h.calls))
    case Painted(sample) =>
      var h := MouseDrag.Frame(st, sample);
      Outcome(h.state, AsActions(h.calls) + [Scene(Render)])
    case KeyPressed(key) => Outcome(st, KeyActions(key))
  }

  /** The sum of the drag distances in a run of actions. */
  function DragSum(acts: seq<Action>): int
  {
    if |acts| == 0 then 0
    else (if acts[0].Scene? && acts[0].call.Logic? then acts[0].call.deltaMousePosX else 0) + DragSum(acts[1..])
  }

  /** A frame painted after the button went up reports a zero drag, however
      far the cursor is from the last anchor. */
  lemma FrameAfterReleaseIsStill(st: MouseDrag.DragState, up: Point, sample: MouseDrag.CursorReads)
    ensures var released := Step(st, MouseReleased(up)).state;
      Step(released, Painted(sample)).actions ==
        [Scene(MouseMove(sample.first.x, sample.first.y)), Scene(Logic(0)), Scene(Render)]
  {
  }

  /** Drag sums add up over concatenated action runs. */
  lemma {:induction false} DragSumAppend(a: seq<Action>, b: seq<Action>)
    ensures DragSum(a + b) == DragSum(a) + DragSum(b)
    decreases |a|
  {
    if |a| == 0 {
      assert a + b == b;
    } else {
      assert (a + b)[1..] == a[1..] + b;
      DragSumAppend(a[1..], b);
    }
  }

  /** The drag distance a handled event contributes to the action stream:
      a painted frame's `deltaMousePosX`, nothing for any other event. */
  lemma StepDragSum(st: MouseDrag.DragState, e: Event)
    ensures e.Painted? ==> DragSum(Step(st, e).actions) == MouseDrag.FrameDelta(st, e.sample)
    ensures !e.Painted? ==> DragSum(Step(st, e).actions) == 0
  {
    var acts := Step(st, e).actions;
    match e
    case MousePressed(pos) =>
      assert acts[1..] == [];
    case MouseReleased(pos) =>
      assert acts == [Scene(AddEaseOutAction), Scene(MouseRelease(pos.x, pos.y))];
      assert acts[1..] == [Scene(MouseRelease(pos.x, pos.y))];
      assert acts[1..][1..] == [];
      assert DragSum(acts[1..]) == 0 + DragSum(acts[1..][1..]);
    case Painted(sample) =>
      var d := MouseDrag.FrameDelta(st, sample);
      assert acts == [Scene(MouseMove(sample.first.x, sample.first.y)), Scene(Logic(d)), Scene(Render)];
      assert acts[1..] == [Scene(Logic(d)), Scene(Render)];
      assert acts[1..][1..] == [Scene(Render)];
      assert acts[1..][1..][1..] == [];
      assert DragSum(acts[1..][1..]) == 0 + DragSum(acts[1..][1..][1..]);
      assert DragSum(acts[1..]) == d + DragSum(acts[1..][1..]);
    case KeyPressed(key) =>
      if |acts| > 0 {
        assert acts[1..] == [];
      }
  }

  /** Events handled one after another by `step`, actions collected in
      order. */
  function RunWith(step: (MouseDrag.DragState, Event) -> Outcome, st: MouseDrag.DragState, events: seq<Event>): Outcome
    decreases |events|
  {
    if |events| == 0 then Outcome(st, [])
    else
      var o := step(st, events[0]);
      var rest := RunWith(step, o.state, events[1..]);
      Outcome(rest.state, o.actions + rest.actions)
  }

  /** Events handled one after another by the window. */
  function Run(st: MouseDrag.DragState, events: seq<Event>): Outcome
  {
    RunWith(Step, st, events)
  }

  /** Running two event sequences back to back is running their
      concatenation, whatever the handler. */
  lemma {:induction false} RunWithAppend(step: (MouseDrag.DragState, Event) -> Outcome, st: MouseDrag.DragState, a: seq<Event>, b: seq<Event>)
    ensures RunWith(step, st, a + b).state == RunWith(step, RunWith(step, st, a).state, b).state
    ensures RunWith(step, st, a + b).actions ==
      RunWith(step, st, a).actions + RunWith(step, RunWith(step, st, a).state, b).actions
    decreases |a|
  {
    if |a| == 0 {
      assert a + b == b;
      assert RunWith(step, st, a).actions + RunWith(step, st, b).actions == RunWith(step, st, b).actions;
    } else {
      var ab := a + b;
      assert ab[0] == a[0];
      assert ab[1..] == a[1..] + b;
      var o := step(st, a[0]);
      RunWithAppend(step, o.state, a[1..], b);
      var mid := RunWith(step, o.state, a[1..]);
      var tail := RunWith(step, mid.state, b);
      assert o.actions + (mid.actions + tail.actions) == (o.actions + mid.actions) + tail.actions;
    }
  }

  /** Running two event sequences back to back through the window is
      running their concatenation. */
  lemma RunAppend(st: MouseDrag.DragState, a: seq<Event>, b: seq<Event>)
    ensures Run(st, a + b).state == Run(Run(st, a).state, b).state
    ensures Run(st, a + b).actions == Run(st, a).actions + Run(Run(st, a).state, b).actions
  {
    RunWithAppend(Step, st, a, b);
  }

  /** Running a single event is handling it. */
  lemma RunSingle(st: MouseDrag.DragState, e: Event)
    ensures Run(st, [e]) == Step(st, e)
  {
    var o := Step(st, e);
    assert [e][0] == e && [e][1..] == [];
    assert RunWith(Step, o.state, []) == Outcome(o.state, []);
    assert o.actions + [] == o.actions;
    assert RunWith(Step, st, [e]) == Outcome(o.state, o.actions + []);
  }

  /** One painted frame per cursor sample. */
  function Paints(frames: seq<MouseDrag.CursorReads>): (events: seq<Event>)
    ensures |events| == |frames|
    ensures forall k :: 0 <= k < |frames| ==> events[k] == Painted(frames[k])
  {
    seq(|frames|, k requires 0 <= k < |frames| => Painted(frames[k]))
  }

  /** Painting a run of frames reports the same drag total and ends in the
      same state as the frame-level model. */
  lemma {:induction false} PaintsMatchFrames(st: MouseDrag.DragState, frames: seq<MouseDrag.CursorReads>)
    ensures Run(st, Paints(frames)).state == MouseDrag.AfterFrames(st, frames)
    ensures DragSum(Run(st, Paints(frames)).actions) == MouseDrag.TotalDelta(st, frames)
    decreases |frames|
  {
    if |frames| > 0 {
      var events := Paints(frames);
      assert events[1..] == Paints(frames[1..]);
      var o := Step(st, events[0]);
      PaintsMatchFrames(o.state, frames[1..]);
      StepDragSum(st, events[0]);
      DragSumAppend(o.actions, Run(o.state, events[1..]).actions);
    }
  }

  /** A complete drag session: the button goes down at `down`, the window
      paints steady frames, the button goes up. The drag distances the scene
      receives add up to the cursor's horizontal travel from the press, and
      the window ends up not dragging. */
  lemma DragSessionReportsTravel(st: MouseDrag.DragState, down: Point, frames: seq<MouseDrag.CursorReads>, up: Point)
    requires |frames| > 0
    requires MouseDrag.Steady(frames)
    ensures var r := Run(st, [MousePressed(down)] + Paints(frames) + [MouseReleased(up)]);
      DragSum(r.actions) == frames[|frames| - 1].first.x - down.x && !r.state.pressed
  {
    var press := [MousePressed(down)];
    var paints := Paints(frames);
    var release := [MouseReleased(up)];
    RunAppend(st, press + paints, release);
    RunAppend(st, press, paints);
    RunSingle(st, MousePressed(down));
    var s1 := Run(st, press).state;
    assert s1 == MouseDrag.Press(st, down).state;
    StepDragSum(st, MousePressed(down));
    PaintsMatchFrames(s1, frames);
    MouseDrag.DragReportsTravelFromPress(st, down, frames);
    var s2 := Run(s1, paints).state;
    StepDragSum(s2, MouseReleased(up));
    RunSingle(s2, MouseReleased(up));
    DragSumAppend(Run(st, press).actions, Run(s1, paints).actions);
    DragSumAppend(Run(st, press + paints).actions, Run(s2, release).actions);
  }
}
