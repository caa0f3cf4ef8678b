# Screen capture selection overlay, modelled in Dafny

The screen-capture tool sits in the system tray. When the F11 hotkey fires, a
message filter notices the `WM_HOTKEY` message and the tray program opens a
full-screen overlay. The user drags a rectangle over that overlay. On release the
overlay normalises the two drag points to a rectangle, asks for a capture of that
region when its width and height are both positive, and closes itself. This project
models that selection logic and the hotkey filter, and proves their properties.

- `CSharpInt` (`csharp_int.dfy`) gives the C# `int` semantics the code depends on:
  unchecked 32-bit subtraction that wraps around, `Math.Min`, and `Math.Abs`, which
  throws `OverflowException` for `int.MinValue`. The exception is a `Result` value.
- `Drawing` (`drawing.dfy`) gives `Point` and `Rectangle` as records of `int`s, and
  three geometric predicates used to state properties: touching, enclosing, and
  opposite corners.
- `SelectionOverlay` (`selection_overlay.dfy`) holds `GetRectangle` and its lemmas.
  It also holds the class `ScreenCaptureSelectionForm` with the fields `start`,
  `end` and `isSelecting` and the three mouse handlers. Painting the selection,
  capturing the screen and closing the window are not performed. Each one is
  recorded instead as an entry in a ghost event log, `events`. So is an exception
  that escapes a handler. Each handler's postcondition gives the log it leaves,
  using the functions `RedrawEvents` and `MouseUpEvents`, and the lemmas prove what
  those logs contain.
- `HotkeyFilter` (`hotkey_filter.dfy`) holds `KeyMessageFilter.PreFilterMessage`.
  The filter keeps a reference to the tray program. The program's hotkey callback
  is reduced to a ghost counter of how many overlays it has shown.

Coordinates are exact C# `int`s, including the cases that overflow. A difference
that leaves the `int` range wraps around. If a wrapped difference is exactly
`int.MinValue`, `Math.Abs` throws. The geometric properties are proved under
`DistancesFit`, which says both true distances are below 2^31. `ScreenCoordinatesFit`
shows that any coordinates in [-2^30, 2^30) meet it. Outside that range, the lemmas
still describe the exact behaviour: symmetry, when `GetRectangle` throws, the
wrapped width and height, and the capture test.

In `OnMouseMove`, `DrawSelection` calls `GetRectangle` too (Program.cs:117), so a
move during a drag can also throw. The model records this as a `Faulted` entry.
When `GetRectangle` faults in `OnMouseUp`, neither a capture nor `Close` is logged,
because the exception leaves the handler before them. That is the only fault the
model tracks; failures inside the capture itself are listed under "Left out".

## Model

| member | source | states |
|---|---|---|
| CSharpInt.Wrap32 | Program.cs:130 | The 32-bit truncation is an `int` congruent to its input modulo 2^32, and it leaves any value already in the `int` range unchanged. |
| CSharpInt.Sub32 | Program.cs:130 | Unchecked `a - b` is the true difference when that fits in an `int`. Otherwise it is the difference shifted by 2^32, downwards above `int.MaxValue` and upwards below `int.MinValue`. |
| CSharpInt.Min | Program.cs:130 | `Math.Min` returns one of its two arguments, and that argument is no greater than the other. |
| CSharpInt.Abs32 | Program.cs:130 | `Math.Abs` throws exactly for `int.MinValue`. Otherwise it returns a non-negative value equal to the argument or to its negation. |
| SelectionOverlay.AbsDifference | Program.cs:130 | For one axis, `Math.Abs` of the wrapped difference throws exactly when the distance is 2^31. Otherwise it equals the distance when that is below 2^31, and 2^32 minus the distance when it is above. |
| SelectionOverlay.GetRectangle | Program.cs:128-131 | The origin is `Math.Min` of each coordinate and the size is `Math.Abs` of the unchecked differences, or `OverflowException`. Its contract: a produced rectangle has on each axis an origin equal to one point's coordinate and no greater than the other's, and a non-negative width and height. |
| SelectionOverlay.GetRectangleOverflow | Program.cs:128-131 | `GetRectangle` throws `OverflowException` if and only if the distance on one of the two axes is exactly 2^31. |
| SelectionOverlay.GetRectangleSize | Program.cs:128-131 | A produced rectangle's width and height are the true distances while those are below 2^31, and their complements to 2^32 once the subtraction has wrapped. |
| SelectionOverlay.GetRectangleSymmetric | Program.cs:128-131 | Swapping the two points gives the same outcome, both the rectangle and the exception. |
| SelectionOverlay.GetRectangleSpans | Program.cs:128-131 | When the distances fit, a rectangle is produced. It reaches from the smaller to the larger coordinate on each axis, with `X + Width == max` and `Y + Height == max`, and the two points are opposite corners of it. |
| SelectionOverlay.GetRectangleSmallest | Program.cs:128-131 | When the distances fit, the result touches both points, and every rectangle that touches both points encloses it. So it is the smallest bounding rectangle. |
| SelectionOverlay.ScreenCoordinatesFit | Program.cs:128-131 | Points whose coordinates lie in [-2^30, 2^30) always have distances that fit. |
| SelectionOverlay.PositiveAreaIff | Program.cs:105-106 | A produced rectangle has positive width and height if and only if the two points differ in both coordinates, including when a difference has wrapped. |
| SelectionOverlay.RedrawEvents | Program.cs:114-122 | One repaint logs exactly one entry: `Redrawn(GetRectangle(start, end))`, the rectangle that is outlined and filled, when `GetRectangle` produces one, and the `OverflowException` otherwise. It never requests a capture or closes. |
| SelectionOverlay.CaptureMatchesLastRedraw | Program.cs:91-112 | When the release lands where the drag's last move did, any capture it requests is of exactly the rectangle that move repainted. |
| SelectionOverlay.MouseUpEvents | Program.cs:105-111 | One release logs one or two entries: a capture request at most, first, then `Closed` exactly when `GetRectangle` produces a rectangle. It never repaints. |
| SelectionOverlay.CaptureCountAppend | Program.cs:100-112 | The captures in a log are the sum of those in its parts, so the count one release appends carries over to the whole log. |
| SelectionOverlay.MouseUpCapturesOnceIff | Program.cs:100-112 | When no exception occurs, a release logs exactly one capture if the points differ in both coordinates and none otherwise. The captured rectangle is `GetRectangle(start, end)` with positive width and height, and the log ends with the overlay closing. An overflow logs the fault and nothing else. |
| SelectionOverlay.ScreenCaptureSelectionForm.constructor | Program.cs:63-65 | A new overlay has `Point.Empty` for both points, is not yet selecting, and has performed no side effects. |
| SelectionOverlay.ScreenCaptureSelectionForm.OnMouseDown | Program.cs:85-89 | A press sets `start` to the pointer and sets `isSelecting`. It leaves `end` and the log unchanged. |
| SelectionOverlay.ScreenCaptureSelectionForm.OnMouseMove | Program.cs:91-98 | During a drag, a move sets `end` to the pointer and logs one repaint of `GetRectangle(start, location)`, or the exception thrown instead. Outside a drag it changes nothing. `start` and `isSelecting` never change. |
| SelectionOverlay.ScreenCaptureSelectionForm.OnMouseUp | Program.cs:100-112 | A release sets `end` to the pointer, clears `isSelecting`, keeps `start` (`Point.Empty` when there was no press), and appends exactly `MouseUpEvents(start, location)` to the log. The log's capture count grows by the count of those entries. |
| SelectionOverlay.ScreenCaptureSelectionForm.DrawSelection | Program.cs:114-126 | A repaint logs the normalised rectangle of the current drag, or the exception `GetRectangle` throws. |
| SelectionOverlay.ScreenCaptureSelectionForm.CaptureScreen | Program.cs:133-149 | A capture is requested for exactly the given rectangle, which its caller has checked has positive width and height. |
| SelectionOverlay.ScreenCaptureSelectionForm.Close | Program.cs:111 | Closing appends a single `Closed` entry to the log. |
| HotkeyFilter.TrayProgram.constructor | Program.cs:20-34 | A newly started program has shown no overlays. |
| HotkeyFilter.TrayProgram.OnHotKeyPressed | Program.cs:41-52 | Each hotkey callback shows exactly one selection overlay. |
| HotkeyFilter.KeyMessageFilter.constructor | Program.cs:178-181 | The filter keeps the program it was given. |
| HotkeyFilter.KeyMessageFilter.PreFilterMessage | Program.cs:183-191 | The filter never consumes a message. It invokes the hotkey callback exactly once when the code is `WM_HOTKEY` (0x0312), and never for any other code. |

`DragScenario`, `ClickScenario`, `ReleaseWithoutPressScenario`,
`PressReleaseScenario` and `FilterScenario` are verified client methods. Dragging
from (100,100) to (50,300) captures the rectangle with origin (50,100), width 50 and
height 200. A click without movement captures nothing. A release with no press
before it measures from (0,0). For any press and release that `GetRectangle` can
measure, a new overlay's whole log holds one capture exactly when the points differ
on both axes. Only a hotkey message reaches the callback.

## Left out

- Painting: clearing the buffer, the green outline and fill, and `BufferedGraphics` (Program.cs:114-126). These are GDI+ rendering with no stateable behaviour. Only the rectangle that is painted is logged.
- The capture itself (Program.cs:135-148): hiding and showing the form, the 100 ms sleep, the bitmap, `CopyFromScreen`, the clipboard and the "Screenshot Saved" notification. This is operating-system I/O and timing, so it appears only as a `CaptureRequested(rect)` entry.
- `ShowToastNotification` and its timer (Program.cs:151-171). This is tray UI driven by timer callbacks.
- SelectionOverlay.ScreenCaptureSelectionForm.CaptureScreen: the capture is assumed to return normally. In the code, `new Bitmap` (Program.cs:138), `CopyFromScreen` (:141) and `Clipboard.SetImage` (:144) can throw, for example for a wrapped width near 2^31. Such a throw would leave `OnMouseUp` before `Close`, and the model does not capture that. Whether they throw depends on the operating system, not on the modelled state.
- The tray icon and menu, `RegisterHotKey`/`UnregisterHotKey`, `Application.Run`/`Exit`, `Exit`, `Main` and the welcome toast (Program.cs:7-39, 54-59, 194-199). These are foreign calls and the message loop. `HotkeyFilter.TrayProgram.constructor` models none of the constructor's side effects.
- `HotkeyFilter.TrayProgram.OnHotKeyPressed`: the modal `ShowDialog` of a new overlay is only counted. The nested message loop that runs the overlay is not modelled.
- The form's window properties: no border, black background, 0.5 opacity (a floating-point value), maximised, topmost, and the handler wiring (Program.cs:70-82).
- The message filter reads only the message code. The model's `Message` carries the window handle and both parameters, but nothing uses them.
- Event delivery: the model lets the handlers be called in any order, including after `Close`. Which mouse events WinForms actually delivers to a closed form is not modelled.
