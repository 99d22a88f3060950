/**
 The interactive orbit camera of the ray marcher: a spherical pose around the
 origin, a control mode, and the cursor position seen by the previous
 cursor event. Each of the three input handlers is a pure function from the
 current state (and the event's arguments) to the next state.

 Numbers are exact reals: the single-precision rounding of the original is
 not modelled.
 */
module Camera {

  /** `math::pi<float>`: the single-precision value nearest to pi. */
  const Pi: real := 3.1415927410125732421875

  /** Radians of rotation per pixel of cursor motion, on each axis. */
  const MouseControlFactor: real := 1.0 / 400.0

  /** Fraction of the radius removed per unit of vertical scroll. */
  const ScrollFactor: real := 0.01

  /** The radius the camera starts at. */
  const InitialRadius: real := 3.0

  /** A two-component vector, used both for cursor positions and for deltas. */
  datatype Vec2 = Vec2(x: real, y: real) {
    function Minus(other: Vec2): Vec2 {
      Vec2(x - other.x, y - other.y)
    }

    /** Component-wise product. */
    function CwMul(other: Vec2): Vec2 {
      Vec2(x * other.x, y * other.y)
    }
  }

  const MouseControl: Vec2 := Vec2(MouseControlFactor, MouseControlFactor)

  /** Spherical coordinates of the camera around the orbit centre. */
  datatype Spherical = Spherical(radius: real, polar: real, azimuthal: real)

  datatype ControlMode = None | Orbit

  /**
   GLFW mouse buttons: only the left one matters to the controller. `Other`
   stands for every button beyond the first three.
   */
  datatype MouseButton = Left | Right | Middle | Other

  /** GLFW button actions. */
  datatype Action = Release | Press | Repeat

  /** The whole state of the controller. */
  datatype CameraControl = CameraControl(pose: Spherical, mode: ControlMode, previousDrag: Vec2)

  /** The closed interval the polar angle is kept in by an orbit drag. */
  predicate PolarInRange(p: real) {
    0.0 <= p <= Pi
  }

  function Min(a: real, b: real): real {
    if b < a then b else a
  }

  function Max(a: real, b: real): real {
    if a < b then b else a
  }

  /**
   `max(lo, min(hi, v))`, as the cursor handler writes it; the contract says
   what that means when the interval is not empty.
   */
  function Clamp(v: real, lo: real, hi: real): (r: real)
    requires lo <= hi
    ensures lo <= r <= hi
    ensures lo <= v <= hi ==> r == v
    ensures v < lo ==> r == lo
    ensures hi < v ==> r == hi
  {
    Max(lo, Min(hi, v))
  }

  /**
   The state the controller is constructed in. The polar and azimuthal angles
   of a `Spherical` built from a radius alone, and the default value of a
   position, are defined by a library outside this model, so they are
   parameters here.
   */
  function Initial(polar: real, azimuthal: real, drag: Vec2): (c: CameraControl)
    ensures c.mode == None && c.pose.radius == 3.0
  {
    CameraControl(Spherical(InitialRadius, polar, azimuthal), None, drag)
  }

  /** The polar angle a drag would reach before clamping. */
  function UnclampedPolar(c: CameraControl, ypos: real): real {
    c.pose.polar - (ypos - c.previousDrag.y) * MouseControlFactor
  }

  /**
   `callbackCursorPosition`: while orbiting, the camera angles move against
   the cursor delta and the polar angle is clamped to [0, Pi]; in every mode
   the cursor becomes the new reference position.
   */
  function CursorPosition(c: CameraControl, xpos: real, ypos: real): (r: CameraControl)
    ensures r.previousDrag == Vec2(xpos, ypos)
    ensures r.mode == c.mode
    ensures r.pose.radius == c.pose.radius
    ensures c.mode == None ==> r.pose == c.pose
    ensures c.mode == Orbit ==> PolarInRange(r.pose.polar)
    ensures c.mode == Orbit ==>
              r.pose.azimuthal - c.pose.azimuthal == (c.previousDrag.x - xpos) / 400.0
    ensures c.mode == Orbit && PolarInRange(UnclampedPolar(c, ypos)) ==>
              r.pose.polar - c.pose.polar == (c.previousDrag.y - ypos) / 400.0
    ensures c.mode == Orbit && UnclampedPolar(c, ypos) < 0.0 ==> r.pose.polar == 0.0
    ensures c.mode == Orbit && Pi < UnclampedPolar(c, ypos) ==> r.pose.polar == Pi
  {
    var cursor := Vec2(xpos, ypos);
    var pose :=
      match c.mode
      case Orbit =>
        var increments := cursor.Minus(c.previousDrag).CwMul(MouseControl);
        var azimuthal := c.pose.azimuthal + -increments.x;
        var polar := c.pose.polar + -increments.y;
        Spherical(c.pose.radius, Clamp(polar, 0.0, Pi), azimuthal)
      case None =>
        c.pose;
    CameraControl(pose, c.mode, cursor)
  }

  /**
   `callbackMouseButton`: a press of the left button starts orbiting, a
   release of the left button stops it; every other event keeps the mode.
   The modifier bits are ignored.
   */
  function MouseButtonEvent(c: CameraControl, button: MouseButton, action: Action, mods: int): (r: CameraControl)
    ensures r.pose == c.pose && r.previousDrag == c.previousDrag
    ensures r.mode == Orbit <==>
              (button == Left && action == Press)
              || (c.mode == Orbit && !(button == Left && action == Release))
    ensures r.mode != c.mode ==> button == Left && action != Repeat
  {
    if action == Press then
      match button
      case Left => c.(mode := Orbit)
      case _ => c
    else if button == Left && action == Release then
      c.(mode := None)
    else
      c
  }

  /** The factor a vertical scroll of `yoffset` multiplies the radius by. */
  function ZoomFactor(yoffset: real): real {
    1.0 - yoffset * ScrollFactor
  }

  /**
   `callbackScroll`: the radius is scaled by `ZoomFactor(yoffset)`; there is
   no lower bound on the result. The horizontal offset is ignored.
   */
  function Scroll(c: CameraControl, xoffset: real, yoffset: real): (r: CameraControl)
    ensures r.mode == c.mode && r.previousDrag == c.previousDrag
    ensures r.pose.polar == c.pose.polar && r.pose.azimuthal == c.pose.azimuthal
    ensures r.pose.radius * 100.0 == c.pose.radius * (100.0 - yoffset)
  {
    var pose := c.pose.(radius := c.pose.radius * ZoomFactor(yoffset));
    c.(pose := pose)
  }
}
