# Gesture-controlled virtual mouse, modelled in Dafny

The program watches one hand through a webcam. Each frame, a hand-landmark detector yields 21 points, or none. The program then does three things:

1. It classifies the hand into one of `left_click`, `right_click`, `scroll_up`, `scroll_down` or no gesture (`gesture_recognizer.py`).
2. It maps the index fingertip from camera pixels to screen pixels and moves the cursor there (`virtual_mouse.py`).
3. It fires at most one click or scroll per frame. Clicks share one cooldown timer (0.3 s), and scrolls share another (0.2 s) (`virtual_mouse.py`, through `mouse_controller.py`).

The project has four files:

- `wrappers.dfy`: an `Option` type.
- `gestures.dfy`, module `GestureRecognition`: the classifier as a pure function `GestureRecognizer.Recognize`. Beside it is a table of guarded rules (`Rules`, `FirstMatch`) as an independent first-match-wins reference. The lemmas cover each rule's exact condition, the unreachability of `scroll_up`, the range of the confidence and which landmarks can matter.
- `mouse.dfy`, module `MouseControl`: the class `MouseController`. The operating system is a sink that records every call it receives (`sent`). Each method is specified by the one event it appends.
- `virtual_mouse.dfy`, module `VirtualMouse`: the pure specification of one frame (`Frame`) and of a run of frames from start-up (`Trace`). Also the class `VirtualMouseApp`, which holds the two timers. Its `Step` method does one frame as the source does and is proved to follow `Frame`. `Run` is the frame loop. Lemmas over `Trace` show three things:
  - Any two clicks are more than 0.3 s apart (two scrolls: more than 0.2 s), whatever the clock does.
  - Every frame with a hand moves the cursor exactly once.
  - The application never scrolls up.

Coordinates and times are `real`. The source compares a floating-point square root with the threshold. The model compares squared distances instead, and `CloseMatchesDistance` proves the two comparisons equal. Python's `int()` of a float truncates toward zero; this is written out in `Trunc`. `np.interp` holds its end values outside the camera range, and `Interp` does the same.

## Model

| member | source | states |
|---|---|---|
| `GestureRecognition.CloseMatchesDistance` | gesture_recognizer.py:67-69 | the squared-distance test is true exactly when the Euclidean planar distance is below the threshold, for any threshold |
| `GestureRecognition.GestureRecognizer.Recognize` | gesture_recognizer.py:8-65 | an absent or short list gives (None, 0); `scroll_up` is never returned; confidence is 0 exactly for no gesture, 0.9 for clicks, 0.8 for scroll_down, so always in [0,1] |
| `GestureRecognition.FirstMatch` | gesture_recognizer.py:46-65 | the result of an ordered rule table is either no gesture or the outcome of a rule whose guard holds, and it is no gesture when no guard holds |
| `GestureRecognition.FirstMatchIsFirst` | gesture_recognizer.py:46-65 | when rule k is the first rule whose guard holds, the table's result is rule k's outcome (first match wins) |
| `GestureRecognition.SquaredDistance` | gesture_recognizer.py:67-69 | the squared planar distance is never negative and is 0 for two landmarks at the same x and y |
| `GestureRecognition.SquaredDistanceSymmetric` | gesture_recognizer.py:67-69 | the distance does not depend on the order of its two landmarks |
| `GestureRecognition.Close` | gesture_recognizer.py:49-58 | closeness holds only under a positive threshold |
| `GestureRecognition.CloseAtSamePoint` | gesture_recognizer.py:49-58 | two landmarks at the same x and y are close exactly when the threshold is positive |
| `GestureRecognition.CloseSymmetric` | gesture_recognizer.py:49-58 | swapping the two landmarks of a closeness test never changes its answer |
| `GestureRecognition.Extended` | gesture_recognizer.py:41-44 | a finger is extended only when its tip lies strictly lower in the image than its middle joint, so never when the tip is level with or above it, and never for a point against itself |
| `GestureRecognition.RecognizeFollowsRules` | gesture_recognizer.py:46-65 | on every well-formed hand the classifier equals the first matching rule of the four-rule table |
| `GestureRecognition.ShortInputIsNone` | gesture_recognizer.py:19-20 | absent, empty or fewer than 21 landmarks gives (None, 0) |
| `GestureRecognition.LeftClickExactly` | gesture_recognizer.py:41-50 | (left_click, 0.9) exactly when index and middle are extended and their tips are closer than the threshold |
| `GestureRecognition.RightClickExactly` | gesture_recognizer.py:49-54 | right_click exactly when the left_click condition fails and middle and ring are extended with close tips |
| `GestureRecognition.ScrollUpGuardImpliesLeftClick` | gesture_recognizer.py:49-59 | the scroll_up condition implies the left_click condition, which is tested first |
| `GestureRecognition.ScrollDownExactly` | gesture_recognizer.py:49-63 | (scroll_down, 0.8) exactly when pinky, index and middle are extended, index and middle tips are not close, and the right_click condition fails |
| `GestureRecognition.RecognizeReadsOnlyKeyPoints` | gesture_recognizer.py:23-44 | two hands that agree on x and y of landmarks 6, 8, 10, 12, 14, 16, 18, 20 get the same result; thumb, depth and other landmarks never matter |
| `GestureRecognition.RecognizeIgnoresPrevY` | gesture_recognizer.py:4-8 | changing the stored `prev_y` never changes a classification |
| `MouseControl.Clamp` | mouse_controller.py:39-40 | the result lies in [lo, hi] when that range is non-empty, equals the input inside it, and is the nearer bound outside it |
| `MouseControl.ClampIdempotent` | mouse_controller.py:39-40 | clamping twice equals clamping once |
| `MouseControl.CursorMove` | mouse_controller.py:39-41 | the move target lies in [0, width-1] x [0, height-1] for a non-empty screen and is the requested point when that is on screen |
| `MouseControl.MouseController.constructor` | mouse_controller.py:5-9 | the screen size is the one the display reports, and nothing has been sent |
| `MouseControl.MouseController.GetScreenSize` | mouse_controller.py:25-27 | returns the size fixed at construction (the fields are constant) |
| `MouseControl.MouseController.MoveMouse` | mouse_controller.py:29-43 | sends exactly one cursor move, to the clamped point |
| `MouseControl.MouseController.LeftClick` | mouse_controller.py:45-50 | sends exactly one left click and nothing else |
| `MouseControl.MouseController.RightClick` | mouse_controller.py:52-57 | sends exactly one right click and nothing else |
| `MouseControl.MouseController.DoubleLeftClick` | mouse_controller.py:59-64 | sends exactly one left double click |
| `MouseControl.MouseController.ScrollUp` | mouse_controller.py:66-76 | sends one scroll of +amount (default 3) |
| `MouseControl.MouseController.ScrollDown` | mouse_controller.py:78-88 | sends one scroll of -amount (default 3) |
| `MouseControl.MouseController.Drag` | mouse_controller.py:90-104 | sends one relative drag whose displacement carries the start point onto the end point |
| `VirtualMouse.Trunc` | virtual_mouse.py:59-60 | float-to-int conversion truncates toward zero: the result is within 1 of the input, on the zero side |
| `VirtualMouse.Interp` | virtual_mouse.py:59-60 | the interpolation gives 0 at or below the camera's 0, the screen size at or beyond the frame size, and a value within [0, screen size] for any non-negative screen size |
| `VirtualMouse.MapToScreen` | virtual_mouse.py:59-60 | the mapped coordinate always lies in [0, screen size]; camera coordinates at or below 0 give 0 and at or beyond the frame size give the screen size |
| `VirtualMouse.MapToScreenMonotone` | virtual_mouse.py:59-60 | the mapping never reverses the order of two camera coordinates |
| `VirtualMouse.MapToScreenMidpoint` | virtual_mouse.py:59-60 | the middle of the camera frame maps to the middle of the screen, rounded down |
| `VirtualMouse.Dispatch` | virtual_mouse.py:69-88 | at most one action; a click only if now - click timer > 0.3 and then only the click timer becomes now; a scroll likewise with 0.2; no action leaves both timers unchanged; no gesture does nothing |
| `VirtualMouse.DispatchFiresExactly` | virtual_mouse.py:69-88 | each gesture sends its own action exactly when its class's timer is strictly past its cooldown |
| `VirtualMouse.TimersIndependent` | virtual_mouse.py:69-88 | click decisions do not depend on the scroll timer and scroll decisions do not depend on the click timer |
| `VirtualMouse.FirstActions` | virtual_mouse.py:28-29 | with both timers at their start value 0, the first click fires exactly when now > 0.3 and the first scroll when now > 0.2 |
| `VirtualMouse.HeldClickFiresTwice` | virtual_mouse.py:69-71 | a pinch held at t0, t0+0.2 and t0+0.35 (t0 > 0.3) clicks on the first and third frame only |
| `VirtualMouse.Frame` | virtual_mouse.py:47-88 | with a hand: one cursor move to the mapped index tip, first, then at most one click or scroll; without a hand: nothing and no timer change; a timer changes only when its class fires, and then becomes now |
| `VirtualMouse.Trace` | virtual_mouse.py:36-88 | a run of frames yields one event list per frame |
| `VirtualMouse.TraceAt` | virtual_mouse.py:36-88 | each frame of a run is handled with the timers the earlier frames left |
| `VirtualMouse.EveryHandFrameMovesOnce` | virtual_mouse.py:47-63 | in a run, every frame with a hand has exactly one cursor move, and every frame without one sends nothing |
| `VirtualMouse.NeverScrollsUp` | virtual_mouse.py:81-83 | no frame of any run ever sends an upward scroll |
| `VirtualMouse.TimerBoundsActions` | virtual_mouse.py:69-88 | every action of a run happened after its cooldown from start-up and no later than its class's current timer |
| `VirtualMouse.ActionsSpaced` | virtual_mouse.py:69-88 | any two actions of the same class in a run are more than that class's cooldown apart, with no assumption about the clock |
| `VirtualMouse.ClicksSpaced` | virtual_mouse.py:69-78 | any two clicks of either button are more than 0.3 s apart |
| `VirtualMouse.HandPresent` | virtual_mouse.py:47 | no detection and an empty landmark list both count as no hand; every list the classifier accepts counts as a hand |
| `VirtualMouse.CursorTarget` | virtual_mouse.py:59-63 | on a screen at least one pixel wide and high, the cursor move for a fingertip lands on the screen; a fingertip at or left of (above) the camera's edge goes to 0, and one at or beyond the far edge goes to the last pixel |
| `VirtualMouse.PinchOnEpochClock` | virtual_mouse.py:66 | with a clock that already reads at least 1 s, as `time.time()` does, both pinch frames of [no hand, pinch at t+0.05, pinch at t+0.40, no hand] click |
| `VirtualMouse.PinchFromStartUp` | virtual_mouse.py:28-29 | frames [no hand, pinch at 0.05 s, pinch at 0.40 s, no hand] produce one click only, on the 0.40 s frame |
| `VirtualMouse.VirtualMouseApp.constructor` | virtual_mouse.py:11-29 | both timers 0, classifier threshold 30, screen size taken from the controller, nothing sent |
| `VirtualMouse.VirtualMouseApp.Step` | virtual_mouse.py:45-92 | the new timers and the events sent are exactly those `Frame` gives for the old timers; the invariant tying timers and sink log to `Trace` of all frames so far is kept |
| `VirtualMouse.VirtualMouseApp.HandleGesture` | virtual_mouse.py:69-88 | the elif chain changes the timers and sends events exactly as `Dispatch` says |
| `VirtualMouse.VirtualMouseApp.Run` | virtual_mouse.py:36-107 | looping over the camera's frames keeps the invariant and extends the history by every frame |

## Behaviour worth knowing

- Both timers start at 0, and the elapsed time is compared strictly (`FirstActions`). So a click is suppressed during the first 0.3 s only when the clock reads 0 at start-up. `PinchFromStartUp` shows this: of two pinch frames at 0.05 s and 0.40 s, only the second clicks. The program reads `time.time()` (virtual_mouse.py:66), which counts seconds since the epoch. With that clock, both pinch frames of the same run click (`PinchOnEpochClock`).
- scroll_down is reached only after the left_click and right_click rules fail. So the index–middle distance and the right_click condition decide it too (`ScrollDownExactly`).
- The mapping from camera to screen yields values in [0, size]. The clamp to size-1 happens later, in `move_mouse` (`MapToScreen`, `CursorMove`, `CursorTarget`).

## Left out

- Camera capture, mirroring, window display, the quit key and cleanup (virtual_mouse.py:11, 22-23, 37-42, 99-107, 140-144) are OpenCV I/O. The loop's input is the sequence of frames given to `Run`.
- The overlay drawing (`_draw_landmarks`, `_draw_cursor`) is rendering only, and the FPS display is cosmetic floating point.
- hand_detector.py is not part of this model. Its output is an input here: `None` or a list of landmarks in pixels.
- config.py is not part of this model. None of the modelled code reads it: the model uses the constants the code hard-codes.
- `VirtualMouseApp.Step` requires a detected hand to have at least 21 landmarks. The frame body indexes landmarks up to 20 unconditionally, so a shorter non-empty list would end the program with an index error. The detector always yields 21.
- The calls into pyautogui and screeninfo are foreign. The `_get_screen_resolution` fallback is one of them: the screen size is a constructor parameter. The `try/except` paths that print an error are another. The sink records every call the controller makes, and whether the operating system carried it out is not modelled.
- The easing durations of cursor moves (0.01 s) and drags (0.5 s) are not recorded in the events.
- IEEE floating point and `np.sqrt` are replaced by exact real arithmetic.
- `time.time()` is replaced by the `now` parameter of `Step`.
- The `print` calls that report clicks are left out.
