# 3D picture viewer main window — verified model

The main window of the picture viewer (`MainWidget`, in `mainwidget.cpp`)
is mostly glue between Qt, WGL and a scene object. This project models the
parts of it that carry logic of their own, and proves what they do:

- **Extension lookup** (`wglIsExtensionSupported`). The window asks the
  driver for its space-separated extension string. It takes the WGL one if
  available, otherwise the OpenGL one. It then scans that string with
  `strstr` for the requested name, accepting an occurrence only when it is a
  whole token. The model keeps the C scan as a loop over indices:
  `CStrings.Find` plays `strstr` and `CStrings.CharAt` reads the
  terminating NUL. The loop is proved equal to two independent definitions
  of "is a token". The first is positional (`Tokens.WholeTokenAt`). The
  second, for a name without spaces, is membership in the list obtained by
  cutting the string at its spaces (`Tokens.Split`, with its inverse
  `Tokens.Join`). A name that contains a space can match across tokens
  (`a b` is accepted in `a b c`), and the C code accepts that too.
  With an empty name the C loop steps past the string's terminator. The model
  exposes this as `Verdict.ReadsPastEnd`. It proves this happens exactly
  when the string has no empty token, and never for a nonempty name.
- **Mouse drag** (`mousePressEvent`, `mouseReleaseEvent`, `logic`). This is a
  small state machine over `isMousePress`, `prevMousePos` and `curMousePos`.
  Each frame tells the scene the horizontal distance the cursor moved since
  the last frame, while the button is held. The main property: over a whole
  drag, those per-frame distances add up to the cursor's travel from the
  press position.
  `logic` reads the cursor position twice: line 89 for `curMousePos`, and
  line 93 again for the new `prevMousePos`. The model keeps both reads. The
  property above is proved when the two reads agree. In general the total
  falls short of the travel by exactly the motion between the two reads of
  each frame: that motion never reaches the scene.
- **Key dispatch** (`keyPressEvent`): Escape, Left and Right, by their Qt
  key codes.
- **Label placement** (`renderLabels`): C++ integer division truncates
  toward zero, and the model writes that out explicitly.

Calls on the scene object are recorded as opaque actions (`SceneCalls`):
those of the mouse and key handlers, and the `mouseMove`, `logic` and
`render` calls of each painted frame. Their effects are not modelled. Positions are widget-local points: the model
takes `mapFromGlobal(cursor().pos())` as an input, not as a computation.

Modules: `Wrappers` (option type), `Geometry` (points), `CStrings`,
`Tokens`, `Extensions`, `SceneCalls`, `MouseDrag`, `Widget`, `Labels`. Each module is in the
snake-case file of the same name (`MouseDrag` in `mouse_drag.dfy`).

## Model

| member | source | states |
|---|---|---|
| CStrings.CharAt | mainwidget.cpp:495 | reading offset `i` of a C string yields `'\0'` exactly at the string's length, the stored character before it |
| CStrings.Find | mainwidget.cpp:484-487 | `strstr` from index `from`: the result is an occurrence at or after `from` with none between `from` and it; `None` means no occurrence at or after `from`; the empty needle is found at `from` |
| Extensions.ExtensionString | mainwidget.cpp:466-478 | the WGL extension string is used when present, otherwise the OpenGL one; there is none exactly when both are missing |
| Extensions.ScanForToken | mainwidget.cpp:480-497 | the restart-after-false-match loop answers `Supported` iff some occurrence of the name is a whole token, and steps past the terminator iff the name is empty and no such occurrence exists |
| Extensions.IsExtensionSupported | mainwidget.cpp:461-498 | without an extension string the answer is unsupported; otherwise supported iff the name occurs as a whole token, which for a name without spaces means it is one of the space-separated tokens |
| Extensions.NonemptyNameStaysInBounds | mainwidget.cpp:481-487 | for a nonempty name every match ends before the terminator, so the next scan start stays inside the string |
| Extensions.EmptyNameMatchesEmptyToken | mainwidget.cpp:481-497 | the empty name is accepted iff the string is empty, starts or ends with a space, or has two adjacent spaces; in every other case the scan overruns |
| Extensions.PrefixOfLongerTokenRejected | mainwidget.cpp:493-495 | `wglExtension` is not a whole token of `wglExtensionTwo` |
| Extensions.SuffixOfLongerTokenRejected | mainwidget.cpp:489-495 | `wglExtension` is not a whole token of `wglFunkywglExtension` |
| Extensions.RejectedMatchResumes | mainwidget.cpp:480-487 | in `wglExtensionTwo wglExtension` the first occurrence is rejected, yet the name is a whole token later in the string |
| Extensions.SpacedNameMatchesAcrossTokens | mainwidget.cpp:489-495 | a name containing a space, `a b`, is accepted as a whole token of `a b c` though it is none of the pieces between spaces |
| Tokens.WholeTokenIffInSplit | mainwidget.cpp:489-495 | an occurrence bounded by string ends or spaces exists iff the (space-free) name is one of the pieces between spaces |
| MouseDrag.Initial | mainwidget.cpp:43 | the window starts with the button not held |
| MouseDrag.Press | mainwidget.cpp:140-147 | a press sets the pressed flag, anchors both previous and current position at the press, and reports the press to the scene |
| MouseDrag.Release | mainwidget.cpp:149-154 | a release clears the pressed flag, leaves both positions as they were, and asks the scene to ease out and then reports the release |
| MouseDrag.FrameDelta | mainwidget.cpp:88-92 | the frame's drag distance is zero when not pressed, and otherwise the distance that carries the anchor's x onto the cursor's x |
| MouseDrag.Frame | mainwidget.cpp:86-97 | a frame takes the first cursor read as current position, moves the anchor to the second read only while pressed, and tells the scene the position and the drag distance in that order |
| MouseDrag.DragDeltasTelescope | mainwidget.cpp:86-97 | while pressed and with both reads of each frame equal, the distances reported add up to the cursor's x travel from the anchor, and the anchor ends at the last cursor position |
| MouseDrag.DragReportsTravelFromPress | mainwidget.cpp:140-144 | after a press, steady frames report in total the cursor's x travel from the press position |
| MouseDrag.ReleasedFramesReportNoDrag | mainwidget.cpp:88-94 | while not pressed, every frame reports zero and the anchor stays put |
| MouseDrag.MovementBetweenReadsIsDropped | mainwidget.cpp:86-97 | for every drag, the distances reported add up to the cursor's x travel from the anchor minus the x motion that fell between the two cursor reads of each frame but the last |
| MouseDrag.DroppedMovementExample | mainwidget.cpp:89-93 | one example run: 5 pixels of motion between the reads of a frame leave the scene told 15 pixels of a 20-pixel travel |
| Widget.KeyActions | mainwidget.cpp:124-138 | Escape, and only Escape, closes; Left, and only Left, goes to the previous picture; Right, and only Right, to the next; every other key does nothing |
| Widget.Step | mainwidget.cpp:86-154 | a key press leaves the drag state alone; a press starts a drag anchored at its position; a release ends it keeping the anchor; a painted frame keeps the pressed flag and ends with the scene's `render` call |
| Widget.FrameAfterReleaseIsStill | mainwidget.cpp:149-154 | the first frame after a release reports a zero drag to the scene |
| Widget.StepDragSum | mainwidget.cpp:86-97 | only painted frames contribute drag distance to the actions the window emits |
| Widget.PaintsMatchFrames | mainwidget.cpp:104-110 | painting a run of frames through the event dispatcher ends in the same state and reports the same drag total as running `logic` frame by frame |
| Widget.DragSessionReportsTravel | mainwidget.cpp:86-154 | press, steady frames, release: the scene receives drag distances totalling the cursor's x travel from the press, and the window ends not dragging |
| Labels.HalfTowardZero | mainwidget.cpp:120-121 | halving truncates toward zero: the remainder has the dividend's sign and is at most one |
| Labels.LabelPosition | mainwidget.cpp:118-122 | a label sits `top` pixels below the window's top and is centred on it: its left and right margins differ by at most one pixel, the extra pixel going right when the label fits and left when it is wider than the window |
| Labels.LayoutLabels | mainwidget.cpp:118-122 | the file-name label is 40 pixels below the window top, the resolution label 30 pixels below that, each centred |
| Labels.WiderLabelStartsNoLater | mainwidget.cpp:120-121 | of two labels, the wider one never starts to the right of the narrower one |

## Left out

- Window, palette, font, dialog and timer setup, and the signal/slot wiring (constructor, `initWidgetProp`, `initLabels`): Qt plumbing with no decision logic.
- Pixel-format and context creation, the multisample probe, GLEW start-up and GL state (`initOpenGLContext`, `initMultiSample`, `setMultisample`, `initGlew`, `initGLStates`): these are foreign driver calls. Apart from rejecting failed driver answers (a missing `wglChoosePixelFormatARB`, or no valid pixel format returned), the only decision `setMultisample` makes itself is the extension lookup, which is modelled.
- `tick` and `setAlpha`: floating-point frame-time clamping and alpha scaling. The frame time passed to the scene's `logic` is not carried in `SceneCalls.Logic` either.
- `mouseDoubleClickEvent`, `displayCenterPicture`, `showEditPictureDialog`, `showHelpDialog`, `setFileName`, `setResolution`: these depend entirely on the scene or on dialogs whose sources are not part of this model.
- `dragEnterEvent` and `dropEvent`: they accept a drop only when the first URL is a directory, which is a file-system query.
- `closeEvent`, `changeEvent`, `SwapBuffers`/`GetDC` and the window lifecycle.
- `paintEvent`'s `renderLabels()` call: the `Painted` event carries the scene calls of `logic` and `render` only; where the labels go is the separate pure `Labels.LayoutLabels`.
- The Qt key codes are the values of Qt's own `Qt::Key_Escape`, `Qt::Key_Left` and `Qt::Key_Right`; Qt's headers are not part of this model.
- Extensions.ScanForToken: what C does after stepping past the terminator is undefined behaviour, so the model stops there with `ReadsPastEnd` instead of continuing.
- Extensions.IsExtensionSupported: a missing `wglGetExtensionsStringARB` entry point and a NULL answer from it are both modelled as an absent string, because the code treats them alike.
- MouseDrag.FrameDelta: the subtraction is over unbounded integers; 32-bit `int` overflow of cursor coordinates is not modelled.
- Labels.LabelPosition: window position, widths and offsets are unbounded integers; 32-bit `int` overflow is not modelled.
