# Virtual route tour: navigator and drag-to-look-around viewer

This project models the interactive state of the 360° route tour on the hotel
site's About page (`VirtualTour360` in `app/about/page.tsx`). The tour shows
one of four stops along the route to the hotel as a panorama. Two small
sequential state machines drive it:

- the **tour navigator**: the current stop index starts at 0 and is changed
  only by the guarded setter `goToStop`. The "previous" and "next" buttons,
  the dots and the stop cards all call that setter. The buttons are disabled
  at the ends, and arrow glyphs in the texture show which neighbours exist;
- the **panorama viewer**: the variables that the viewer's set-up closes over
  are whether a pointer is captured, the pointer-down snapshot and the
  longitude and latitude. Pointer-down, pointer-move and pointer-up change
  them, and each animation frame rotates the view while idle and clamps the
  latitude to [-85, 85].

Modules:

- `TourNavigator` (`navigator.dfy`) holds `goToStop` as a pure index function
  (`GoTo`) and the button and arrow conditions. It also holds `Follow`, the
  index after a whole history of requests. It is proved equal to the last
  request that named a stop.
- `Orientation` (`orientation.dfy`) holds the viewer's closure state as a value
  (`Viewer`) and one function per handler. The lemmas state what the handlers
  promise: snapshot-relative moves, returning to the start point, idle
  rotation, and clamping only in the frame.
- `VirtualTour` (`virtual_tour.dfy`) holds the four stops and the class
  `TourViewer`. Its fields are the component's state. Its methods are the event
  handlers, and each is proved to move its state exactly as the matching
  `Orientation` or `TourNavigator` function says.

Angles and pointer coordinates are Dafny `real`s. They stand for JavaScript
doubles but ignore rounding: the model computes `0.1` and `0.05` as exact
real numbers, while in the program repeated `lon += 0.05` drifts slightly.

Points where the code's behaviour is easy to misread:

- The latitude is clamped only in the animation frame (line 237), never in
  the move handler. Between a move and the next frame the latitude can lie
  outside [-85, 85] (`Orientation.MoveCanLeaveLatOutOfRange`).
- Only mouse-up and touch-end end a drag (lines 223, 226). No pointer-leave
  handler is registered, so leaving the surface does not release the pointer.
- The set-up calls `animate()` once, immediately (line 249). So right after a
  mount or a stop change the longitude is 0.05, not 0 (`Orientation.Mounted`).
- The set-up re-runs only when the current stop really changes. React skips a
  state update to the same value, so `goToStop(currentStop)` leaves the
  orientation alone (`VirtualTour.TourViewer.GoToStop`).
- The `isDragging` flag that picks the cursor is component state, and the set-up
  does not reset it. A stop change during a held drag releases the viewer's
  capture but leaves the grabbing cursor on until the next pointer-up
  (`VirtualTour.StopChangeDuringDrag`).

## Model

| member | source | states |
|---|---|---|
| `TourNavigator.GoTo` | app/about/page.tsx:282-286 | an in-range request becomes the new index; otherwise the index is kept, never replaced by a third (clamped) value; it changes only to an in-range request; an in-range index stays in range |
| `TourNavigator.GoToAccepts` | app/about/page.tsx:282-285 | a request `0 <= i < n` sets the current stop to `i` |
| `TourNavigator.GoToIgnores` | app/about/page.tsx:283 | a request below 0 or at or above `n` leaves the current stop unchanged |
| `TourNavigator.PrevDisabled` | app/about/page.tsx:309 | "previous" is disabled (`cur === 0`) exactly when, for a stop in range, there is no earlier stop |
| `TourNavigator.NextDisabled` | app/about/page.tsx:328 | "next" is disabled (`cur === n - 1`) exactly when, for a stop in range, there is no later stop |
| `TourNavigator.ShowsRightArrow` | app/about/page.tsx:156-158 | the right arrow is drawn (`cur < n - 1`) exactly when, for a stop in range, a later stop exists |
| `TourNavigator.ShowsLeftArrow` | app/about/page.tsx:160-162 | the left arrow is drawn (`cur > 0`) exactly when, for a stop in range, an earlier stop exists |
| `TourNavigator.ButtonsDisabledIffNoOp` | app/about/page.tsx:307-328 | "previous" is disabled exactly when `goToStop(cur - 1)` would be a no-op, "next" exactly when `goToStop(cur + 1)` would be; when enabled they move by one |
| `TourNavigator.ArrowsMatchButtons` | app/about/page.tsx:156-162 | the right arrow is drawn iff "next" is enabled (`cur < n - 1`), the left arrow iff "previous" is enabled (`cur > 0`) |
| `TourNavigator.Follow` | app/about/page.tsx:282-286 | after any history of requests the index is the start or one of the requests, and an in-range start stays in range |
| `TourNavigator.FollowIsLastAccepted` | app/about/page.tsx:282-286 | after any history of requests the current stop is the last request that named a stop, or the start when none did |
| `TourNavigator.ReachableIndexInRange` | app/about/page.tsx:54 | starting at 0 and changed only by `goToStop`, the current stop of a non-empty tour is always in `[0, n)` |
| `Orientation.Initial` | app/about/page.tsx:185-191 | the closure variables start not dragging, with longitude and latitude 0 and the snapshot equal to them |
| `Orientation.Clamp` | app/about/page.tsx:237 | the result lies in [-85, 85], equals the input when it is in range, and is the nearer bound otherwise |
| `Orientation.AnimateStep` | app/about/page.tsx:230-237 | one frame adds 0.05 to the longitude when idle (exactly, in real arithmetic) and leaves it while dragging; the latitude ends in [-85, 85] and an in-range latitude is unchanged; capture and snapshot are untouched |
| `Orientation.Frames` | app/about/page.tsx:229-237 | a run of frames never changes the capture, and after at least one frame the latitude is in [-85, 85] |
| `Orientation.OnPointerDown` | app/about/page.tsx:193-203 | pointer-down captures the pointer, records the pointer position and current longitude and latitude as the drag origin, and changes neither angle |
| `Orientation.OnPointerMove` | app/about/page.tsx:205-213 | a move never changes the capture or the snapshot, and with no pointer captured it changes nothing at all |
| `Orientation.OnPointerUp` | app/about/page.tsx:215-218 | pointer-up releases the pointer and keeps the orientation and the snapshot |
| `Orientation.MoveIgnoredWhenIdle` | app/about/page.tsx:205-206 | a move with no pointer captured changes nothing |
| `Orientation.MoveFollowsOffset` | app/about/page.tsx:210-211 | while dragging, the longitude is the origin minus 0.1 × the horizontal offset and the latitude is the origin plus 0.1 × the vertical offset; nothing else changes |
| `Orientation.MoveOverridesMove` | app/about/page.tsx:205-213 | a move depends only on the snapshot and the pointer, so a later move cancels an earlier one |
| `Orientation.MovesEndAtLast` | app/about/page.tsx:205-213 | a whole run of moves ends in the state its last move alone gives |
| `Orientation.DragBackRestores` | app/about/page.tsx:199-211 | a drag whose pointer returns to the pointer-down position restores the origin longitude and latitude, whatever the path |
| `Orientation.PointerUpReleases` | app/about/page.tsx:215-218 | pointer-up always clears the capture, keeps the orientation, and makes every later move a no-op |
| `Orientation.IdleFramesRotate` | app/about/page.tsx:233-235 | while idle, `k` frames rotate the longitude by `0.05 × k` (exactly, in real arithmetic) |
| `Orientation.DraggingFramesHoldLon` | app/about/page.tsx:233-235 | while dragging, no number of frames changes the longitude |
| `Orientation.FramesKeepLat` | app/about/page.tsx:237 | any positive number of frames leaves the latitude at its clamp: unchanged if in range, at the nearer bound otherwise |
| `Orientation.MoveCanLeaveLatOutOfRange` | app/about/page.tsx:205-237 | a move can set the latitude to 500, out of range, and the next frame brings it to 85 |
| `Orientation.Mounted` | app/about/page.tsx:185-249 | the state the set-up produces (initial variables plus the immediate first frame) is not dragging, with latitude 0 and longitude 0.05; `TourViewer.SetUpViewer` shows that every set-up reaches it, whatever came before |
| `VirtualTour.RouteStops` | app/about/page.tsx:59-84 | the route is the four fixed stops with distinct names, from "Highway Exit" to "Hotel Entrance" (position "Arrival") |
| `VirtualTour.TourViewer.constructor` | app/about/page.tsx:54-84 | the tour starts at stop 0 of the four fixed stops, not dragging, with the viewer freshly set up |
| `VirtualTour.TourViewer.SetUpViewer` | app/about/page.tsx:185-191 | the set-up resets the closure variables and runs one frame, giving the mounted state; current stop and cursor flag are untouched |
| `VirtualTour.TourViewer.GoToStop` | app/about/page.tsx:282-286 | the new index is `GoTo` of the old one, the current stop is the requested stop when in range, the orientation resets exactly when the stop changes, and the cursor flag is kept |
| `VirtualTour.TourViewer.Previous` | app/about/page.tsx:307-309 | "previous" moves back one stop and sets the viewer up afresh, or at the first stop is a no-op on stop and orientation; the cursor flag is kept |
| `VirtualTour.TourViewer.Next` | app/about/page.tsx:326-328 | "next" moves on one stop and sets the viewer up afresh, or at the last stop is a no-op on stop and orientation; the cursor flag is kept |
| `VirtualTour.TourViewer.PointerDown` | app/about/page.tsx:193-203 | the new viewer state is `OnPointerDown` of the old one and the cursor flag is set |
| `VirtualTour.TourViewer.PointerMove` | app/about/page.tsx:205-213 | the new viewer state is `OnPointerMove` of the old one; nothing else changes |
| `VirtualTour.TourViewer.PointerUp` | app/about/page.tsx:215-218 | the new viewer state is `OnPointerUp` of the old one and the cursor flag is cleared |
| `VirtualTour.TourViewer.AnimationFrame` | app/about/page.tsx:230-237 | the new viewer state is `AnimateStep` of the old one, so the latitude ends in [-85, 85] |
| `VirtualTour.LastStopScenario` | app/about/page.tsx:156-162 | with the four stops at index 3, "next" is disabled, only the left arrow is drawn, and `goToStop(4)` is ignored |
| `VirtualTour.StopChangeDuringDrag` | app/about/page.tsx:185-196 | after pointer-down, a move and a stop change, the viewer is no longer capturing but the cursor flag is still set |

## Left out

- Floating-point rounding of `lon`, `lat` and the 0.1 / 0.05 factors; the model computes with exact reals.

- The 3D scene, camera, renderer, sphere geometry, material and texture objects, and their disposal (lines 93-108, 176-182, 275-278). These are calls into a graphics library.
- Texture drawing on the canvas: gradient, path band, text and fonts (lines 111-155). Only the arrow conditions (lines 156-162) are modelled.
- The scattered landmark glyphs (lines 165-174). They use unseeded randomness and are cosmetic.
- The camera look-at point from longitude and latitude (lines 238-245). This is floating-point trigonometry.
- Registering and removing event listeners, `requestAnimationFrame` / `cancelAnimationFrame`, and resize handling (lines 220-231, 253-279). This is browser scheduling. A frame is modelled as a call to `AnimationFrame`, and a stop change as one atomic step.
- Reading mouse or touch coordinates from the event (lines 197-198, 208-209). The input is an `(x, y)` pair.
- The loading overlay flag `isLoading` (lines 55, 250, 297-304). It only affects rendering.
- The JSX markup and the other sections of the About page, the home page, the layout, the rooms page and the two API proxy routes. They are static markup or network forwarding with no decision logic.
