/** The mouse-drag state machine of the main window: a press starts a drag,
    every frame reports how far the cursor moved horizontally since the
    previous frame while the button is held, and a release ends the drag. */
module MouseDrag {
  import opened Geometry
  import opened SceneCalls

  /** `isMousePress`, `prevMousePos` and `curMousePos` of the window. */
  datatype DragState = DragState(pressed: bool, prev: Point, cur: Point)

  /** The cursor as one frame of `logic` sees it. The frame asks for the
      cursor position twice: once for `curMousePos` and, while a drag is
      on, once more for `prevMousePos`. */
  datatype CursorReads = CursorReads(first: Point, second: Point)

  /** A handler's effect: the new state and the scene calls it made, in
      order. */
  datatype Handled = Handled(state: DragState, calls: seq<SceneCall>)

  /** The state the constructor leaves: not pressed, both positions the
      default (0, 0) point. */
  function Initial(): (st: DragState)
    ensures !st.pressed
  {
    DragState(false, Point(0, 0), Point(0, 0))
  }

  /** `mousePressEvent`: start a drag at the press position and tell the
      scene. */
  function Press(st: DragState, pos: Point): (h: Handled)
    ensures h.state.pressed
    ensures h.state.prev == h.state.cur == pos
    ensures h.calls == [MousePress(pos.x, pos.y)]
  {
    Handled(DragState(true, pos, pos), [MousePress(pos.x, pos.y)])
  }

  /** `mouseReleaseEvent`: end the drag, keep both positions, and tell the
      scene to ease out and that the button went up. */
  function Release(st: DragState, pos: Point): (h: Handled)
    ensures !h.state.pressed
    ensures h.state.prev == st.prev && h.state.cur == st.cur
    ensures h.calls == [AddEaseOutAction, MouseRelease(pos.x, pos.y)]
  {
    Handled(st.(pressed := false), [AddEaseOutAction, MouseRelease(pos.x, pos.y)])
  }

  /** The horizontal drag distance one frame reports. */
  function FrameDelta(st: DragState, sample: CursorReads): (dx: int)
    ensures !st.pressed ==> dx == 0
    ensures st.pressed ==> st.prev.x + dx == sample.first.x
  {
    if st.pressed then sample.first.x - st.prev.x else 0
  }

  /** `logic`: sample the cursor, compute the frame's drag distance, move
      the drag anchor to the cursor while pressed, and hand position and
      distance to the scene. */
  function Frame(st: DragState, sample: CursorReads): (h: Handled)
    ensures h.state.pressed == st.pressed
    ensures h.state.cur == sample.first
    ensures !st.pressed ==> h.state.prev == st.prev
    ensures st.pressed ==> h.state.prev == sample.second
    ensures h.calls == [MouseMove(sample.first.x, sample.first.y), Logic(FrameDelta(st, sample))]
  {
    var prev := if st.pressed then sample.second else st.prev;
    Handled(DragState(st.pressed, prev, sample.first),
            [MouseMove(sample.first.x, sample.first.y), Logic(FrameDelta(st, sample))])
  }

  /** The state after a run of frames. */
  function AfterFrames(st: DragState, frames: seq<CursorReads>): DragState
    decreases |frames|
  {
    if |frames| == 0 then st else AfterFrames(Frame(st, frames[0]).state, frames[1..])
  }

  /** The sum of the drag distances a run of frames reports to the scene. */
  function TotalDelta(st: DragState, frames: seq<CursorReads>): int
    decreases |frames|
  {
    if |frames| == 0 then 0
    else FrameDelta(st, frames[0]) + TotalDelta(Frame(st, frames[0]).state, frames[1..])
  }

  /** Both cursor reads of every frame agree: the cursor did not move
      between them. */
  predicate Steady(frames: seq<CursorReads>)
  {
    forall k :: 0 <= k < |frames| ==> frames[k].first == frames[k].second
  }

  /** While the button is held and the cursor holds still within each
      frame, the distances reported add up to the cursor's horizontal
      displacement from the drag anchor: nothing is lost or counted twice,
      and the anchor ends at the last cursor position. */
  lemma {:induction false} DragDeltasTelescope(st: DragState, frames: seq<CursorReads>)
    requires st.pressed
    requires |frames| > 0
    requires Steady(frames)
    ensures TotalDelta(st, frames) == frames[|frames| - 1].first.x - st.prev.x
    ensures AfterFrames(st, frames).prev == frames[|frames| - 1].first
    decreases |frames|
  {
    if |frames| > 1 {
      var next := Frame(st, frames[0]).state;
      assert Steady(frames[1..]) by {
        forall k | 0 <= k < |frames| - 1
          ensures frames[1..][k].first == frames[1..][k].second
        {
          assert frames[1..][k] == frames[k + 1];
        }
      }
      DragDeltasTelescope(next, frames[1..]);
    }
  }

  /** A whole drag, from the press through steady frames, reports in total
      the cursor's horizontal travel from the press position. */
  lemma DragReportsTravelFromPress(st: DragState, pos: Point, frames: seq<CursorReads>)
    requires |frames| > 0
    requires Steady(frames)
    ensures TotalDelta(Press(st, pos).state, frames) == frames[|frames| - 1].first.x - pos.x
  {
    DragDeltasTelescope(Press(st, pos).state, frames);
  }

  /** Without a held button, frames report no drag and leave the anchor
      where it was. */
  lemma {:induction false} ReleasedFramesReportNoDrag(st: DragState, frames: seq<CursorReads>)
    requires !st.pressed
    ensures TotalDelta(st, frames) == 0
    ensures AfterFrames(st, frames).prev == st.prev
    ensures !AfterFrames(st, frames).pressed
    decreases |frames|
  {
    if |frames| > 0 {
      ReleasedFramesReportNoDrag(Frame(st, frames[0]).state, frames[1..]);
    }
  }

  /** The horizontal cursor motion that happens between the two reads of
      each frame, summed over every frame but the last (the last frame's
      second read only moves the anchor, which no later frame measures). */
  function Slip(frames: seq<CursorReads>): int
    decreases |frames|
  {
    if |frames| <= 1 then 0
    else (frames[0].second.x - frames[0].first.x) + Slip(frames[1..])
  }

  /** The second cursor read matters: while the button is held, the
      distances reported add up to the cursor's travel from the anchor
      minus all the motion that fell between the two reads of a frame. That
      motion never reaches the scene. */
  lemma {:induction false} MovementBetweenReadsIsDropped(st: DragState, frames: seq<CursorReads>)
    requires st.pressed
    requires |frames| > 0
    ensures TotalDelta(st, frames) == frames[|frames| - 1].first.x - st.prev.x - Slip(frames)
    decreases |frames|
  {
    if |frames| > 1 {
      MovementBetweenReadsIsDropped(Frame(st, frames[0]).state, frames[1..]);
    }
  }

  /** One concrete drag: the cursor moves 5 pixels between the reads of the
      first frame, so the scene is told 15 pixels of a 20-pixel travel. */
  lemma DroppedMovementExample()
    ensures var st := Press(Initial(), Point(0, 0)).state;
      var frames := [CursorReads(Point(10, 0), Point(15, 0)), CursorReads(Point(20, 0), Point(20, 0))];
      TotalDelta(st, frames) == 15 && frames[|frames| - 1].first.x - st.prev.x == 20
  {
  }
}
