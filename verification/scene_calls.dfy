/** What the window hands to its collaborators. The scene's own behaviour
    is not part of this model: each call the window makes on it is recorded
    as an opaque action carrying the call's arguments. */
module SceneCalls {

  /** The scene methods the window calls from its input handlers and from
      `paintEvent` (through `logic` and `render`). `Logic` carries the
      horizontal drag distance of the frame; the frame time passed alongside
      it is left out. */
  datatype SceneCall =
    | MousePress(px: int, py: int)
    | MouseRelease(rx: int, ry: int)
    | AddEaseOutAction
    | MouseMove(mx: int, my: int)
    | Logic(deltaMousePosX: int)
    | PrevBtnClicked
    | NextBtnClicked
    | Render

  /** Everything the modelled events make the window do, apart from moving
      the labels, which `Labels` models on its own. */
  datatype Action = CloseWindow | Scene(call: SceneCall)

}
