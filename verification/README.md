# Orbit camera controller of the ray marcher

This project models `CameraControl`, the interactive orbit camera of the
`raymarch` demo. The camera sits on a sphere around the scene origin. Its pose
is a spherical triple: radius, polar angle and azimuthal angle. The controller
has two modes, `None` and `Orbit`, and remembers the cursor position of the
previous cursor event. Three window-system callbacks drive it:

- a cursor move. While orbiting, the angles move against the scaled cursor
  delta (1/400 radian per pixel) and the polar angle is clamped to [0, pi].
  In every mode the cursor becomes the new reference position.
- a mouse button. A left press enters `Orbit` and a left release returns to
  `None`.
- a scroll. The radius is multiplied by `1 - yoffset * 0.01`.

Files:

- `camera.dfy`, module `Camera`: the state as immutable datatypes over exact
  reals, and one pure function per callback. Each contract says which fields
  the event touches and how.
- `camera_events.dfy`, module `CameraEvents`: event traces (`Run` applies a
  sequence of events) and lemmas over them. These cover the polar invariant
  along any trace, the path independence of a drag, the mode as decided by the
  last left press or release, and the multiplicative composition of scrolls.

Two behaviours of the code are worth stating plainly:

- The code puts no lower bound on the radius. `ScrollKeepsPositiveIff` and
  `ScrollCollapsesRadius` show that a scroll of 100 or more takes a positive
  radius to zero or below.
- The code never wraps the azimuthal angle. `DragAzimuthal` states the exact,
  unwrapped change.

## Model

| member | source | states |
|---|---|---|
| Camera.Clamp | src/apps/raymarch/raymarch/CameraControl.h:50-51 | `max(0, min(pi, p))` lies in [0, pi]. It returns `p` unchanged inside the interval and the nearer bound outside it. |
| Camera.Initial | src/apps/raymarch/raymarch/CameraControl.h:27-28 | A new controller has radius 3 and is in mode `None`. |
| Camera.CursorPosition | src/apps/raymarch/raymarch/CameraControl.h:35-62 | The cursor always becomes the reference position. The mode and radius never change. In `None` the pose is untouched. In `Orbit` the azimuthal angle changes by exactly (previous x - x)/400 and the polar angle ends in [0, pi]. The polar angle equals the unclamped value when that value is in range, and is 0 or pi when the value falls below or above. |
| Camera.MouseButtonEvent | src/apps/raymarch/raymarch/CameraControl.h:65-80 | The pose and the reference position are never changed. The result is `Orbit` exactly when the event is a left press, or when the mode was `Orbit` and the event is not a left release. Only a left press or a left release can change the mode. |
| Camera.Scroll | src/apps/raymarch/raymarch/CameraControl.h:83-86 | Only the radius changes: 100 times the new radius equals the old radius times (100 - yoffset). The angles, mode and reference position are kept. |
| CameraEvents.LeftPressOrbits | src/apps/raymarch/raymarch/CameraControl.h:67-74 | A left press enters `Orbit` from either mode. |
| CameraEvents.LeftReleaseStops | src/apps/raymarch/raymarch/CameraControl.h:76-79 | A left release enters `None` from either mode. |
| CameraEvents.OtherButtonInert | src/apps/raymarch/raymarch/CameraControl.h:65-80 | An event of any other button, or a left-button repeat, leaves the whole state unchanged. |
| CameraEvents.ModeAfterSplit | src/apps/raymarch/raymarch/CameraControl.h:65-80 | The mode given by the last left press or release of a trace equals the mode reached by taking the first event and then the rest. |
| CameraEvents.RunMode | src/apps/raymarch/raymarch/CameraControl.h:65-80 | After any trace of events, the mode is the one set by the trace's last left press or release. With neither in the trace, it is the starting mode. |
| CameraEvents.StepKeepsPolar | src/apps/raymarch/raymarch/CameraControl.h:35-86 | No handler takes a polar angle in [0, pi] out of that interval. |
| CameraEvents.RunKeepsPolar | src/apps/raymarch/raymarch/CameraControl.h:50-51 | Along any trace of events, a polar angle in [0, pi] stays in [0, pi]. |
| CameraEvents.OrbitMoveThenRunKeepsPolar | src/apps/raymarch/raymarch/CameraControl.h:45-51 | While orbiting, one cursor move brings any polar angle into [0, pi], whatever the delta. Any later events keep it there. |
| CameraEvents.DragAzimuthal | src/apps/raymarch/raymarch/CameraControl.h:45-48 | While orbiting, a sequence of cursor moves changes the azimuthal angle by (reference x - final x)/400, whatever path the cursor took. There is no wrap. The radius and mode are kept, and the final cursor becomes the reference. |
| CameraEvents.DragPolar | src/apps/raymarch/raymarch/CameraControl.h:45-51 | While orbiting, a sequence of cursor moves along which the clamp never applies changes the polar angle by exactly (reference y - final y)/400. |
| CameraEvents.DragThereAndBack | src/apps/raymarch/raymarch/CameraControl.h:45-61 | Moving away and back to the reference position restores the azimuthal angle and the reference position. It restores the whole pose when the polar angle started in range and the first move was not clamped. |
| CameraEvents.IdleMoveForgetsReference | src/apps/raymarch/raymarch/CameraControl.h:41-61 | Two states that differ only in their reference position behave identically on any trace that starts with a cursor move made in `None`. So a stale reference never causes a jump on re-entering `Orbit` after a cursor move made while not orbiting. |
| CameraEvents.ScrollZero | src/apps/raymarch/raymarch/CameraControl.h:83-86 | A scroll with yoffset 0 leaves the whole state unchanged. |
| CameraEvents.ScrollInShrinks | src/apps/raymarch/raymarch/CameraControl.h:85 | From a positive radius, a scroll with 0 < yoffset < 100 strictly decreases the radius and keeps it positive. |
| CameraEvents.ScrollOutGrows | src/apps/raymarch/raymarch/CameraControl.h:85 | From a positive radius, a negative yoffset strictly increases the radius. |
| CameraEvents.ScrollKeepsPositiveIff | src/apps/raymarch/raymarch/CameraControl.h:85 | From a positive radius, the scrolled radius is positive if and only if yoffset < 100. There is no clamp. |
| CameraEvents.ScrollCollapsesRadius | src/apps/raymarch/raymarch/CameraControl.h:83-86 | Scrolling by 100 from the initial state gives radius 0. |
| CameraEvents.ScrollsCommute | src/apps/raymarch/raymarch/CameraControl.h:83-86 | Two scrolls give the same state in either order. |
| CameraEvents.RunRadius | src/apps/raymarch/raymarch/CameraControl.h:83-86 | After any trace, the radius is the starting radius times the product of the zoom factors of the trace's scrolls. No other event changes it. |
| CameraEvents.NoScrollKeepsRadius | src/apps/raymarch/raymarch/CameraControl.h:35-80 | A trace without scrolls keeps the radius. |

## Left out

- Floating-point rounding is not modelled. This covers the `double` to `float` casts of the cursor position and the scroll offset, and single-precision arithmetic in general. All quantities are exact reals. The factor 1/400 and the scroll factor 0.01 are their exact decimal values. pi is the single-precision value of `math::pi<float>`, 3.1415927410125732421875.
- GLFW button and action codes are the enumerations `MouseButton` and `Action`, not integers. The handler tests only whether the button is the left one and the action is press or release.
- The modifier bits of a button event and the horizontal offset of a scroll are parameters that the handlers ignore, as in the code.
- Camera.Initial: the initial polar and azimuthal angles and the default reference position are parameters. They come from constructors of the external `math` library, which is not part of this model.
- The conversion of the pose into a camera-to-world frame (`computeTangentFrame`, `frameToCanonical`, src/apps/raymarch/raymarch/Application.h:74-75) is left out. It belongs to the external `math` library.
- The window and event loop in main.cpp are left out because they are I/O: window creation, callback registration, the key handler and the FPS title. main.cpp never registers the scroll callback, but `Scroll` is modelled on its own. `CameraEvents.Run` stands in for the callbacks being delivered in order.
- Program.h (reading shader files, GL compile and link) and the GL calls of Application.h are foreign I/O.
- The build recipe conanfile.py has no runtime logic.
- The sphere tracer, normal estimation and shading are in GLSL shader sources, which are not part of this model.
