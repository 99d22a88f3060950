/**
 Sequences of input events fed to the orbit camera, and what they do to its
 state as a whole: the polar clamp holds along any trace, a drag rotates by
 the net cursor displacement whatever the path, the mode is decided by the
 last left-button press or release, and scrolls compose multiplicatively.
 */
module CameraEvents {
  import opened Camera

  /** One input event, as the window system delivers it. */
  datatype Event =
    | CursorMoved(xpos: real, ypos: real)
    | ButtonChanged(button: MouseButton, action: Action, mods: int)
    | Scrolled(xoffset: real, yoffset: real)

  /** Dispatches one event to its handler. */
  function Step(c: CameraControl, e: Event): CameraControl {
    match e
    case CursorMoved(x, y) => CursorPosition(c, x, y)
    case ButtonChanged(b, a, m) => MouseButtonEvent(c, b, a, m)
    case Scrolled(dx, dy) => Scroll(c, dx, dy)
  }

  /** Applies the events in order. */
  function Run(c: CameraControl, es: seq<Event>): CameraControl
    decreases |es|
  {
    if |es| == 0 then c else Run(Step(c, es[0]), es[1..])
  }

  // ---------------------------------------------------------------------
  // Mouse button

  /** Pressing the left button starts orbiting, from either mode. */
  lemma LeftPressOrbits(c: CameraControl, mods: int)
    ensures MouseButtonEvent(c, Left, Press, mods).mode == Orbit
  {
  }

  /** Releasing the left button stops orbiting, from either mode. */
  lemma LeftReleaseStops(c: CameraControl, mods: int)
    ensures MouseButtonEvent(c, Left, Release, mods).mode == None
  {
  }

  /** Any event of another button, and a left-button repeat, changes nothing. */
  lemma OtherButtonInert(c: CameraControl, b: MouseButton, a: Action, mods: int)
    requires b != Left || a == Repeat
    ensures MouseButtonEvent(c, b, a, mods) == c
  {
  }

  /**
   The reference definition of the mode: the last left-button press or
   release in the trace decides it, and without one the mode is the start
   mode.
   */
  function ModeAfter(start: ControlMode, es: seq<Event>): ControlMode
    decreases |es|
  {
    if |es| == 0 then start
    else
      var last := es[|es| - 1];
      if last.ButtonChanged? && last.button == Left && last.action == Press then Orbit
      else if last.ButtonChanged? && last.button == Left && last.action == Release then None
      else ModeAfter(start, es[..|es| - 1])
  }

  /** Consuming a trace from the front agrees with `ModeAfter`. */
  lemma {:induction false} ModeAfterSplit(m: ControlMode, es: seq<Event>)
    requires |es| > 0
    ensures ModeAfter(m, es) == ModeAfter(ModeAfter(m, [es[0]]), es[1..])
    decreases |es|
  {
    if |es| == 1 {
      assert es == [es[0]];
      assert es[1..] == [];
    } else {
      var init := es[..|es| - 1];
      assert [es[0]][..0] == [];
      assert init[0] == es[0];
      assert init[1..] == es[1..][..|es[1..]| - 1];
      assert es[1..][|es[1..]| - 1] == es[|es| - 1];
      ModeAfterSplit(m, init);
    }
  }

  /** Running the handlers leaves the mode that `ModeAfter` describes. */
  lemma {:induction false} RunMode(c: CameraControl, es: seq<Event>)
    ensures Run(c, es).mode == ModeAfter(c.mode, es)
    decreases |es|
  {
    if |es| > 0 {
      var c1 := Step(c, es[0]);
      assert [es[0]][..0] == [];
      assert c1.mode == ModeAfter(c.mode, [es[0]]);
      RunMode(c1, es[1..]);
      ModeAfterSplit(c.mode, es);
    }
  }

  // ---------------------------------------------------------------------
  // Polar clamp

  /** Every handler keeps the polar angle in [0, Pi] once it is there. */
  lemma StepKeepsPolar(c: CameraControl, e: Event)
    requires PolarInRange(c.pose.polar)
    ensures PolarInRange(Step(c, e).pose.polar)
  {
  }

  /** Along any trace, a polar angle in [0, Pi] stays in [0, Pi]. */
  lemma {:induction false} RunKeepsPolar(c: CameraControl, es: seq<Event>)
    requires PolarInRange(c.pose.polar)
    ensures PolarInRange(Run(c, es).pose.polar)
    decreases |es|
  {
    if |es| > 0 {
      StepKeepsPolar(c, es[0]);
      RunKeepsPolar(Step(c, es[0]), es[1..]);
    }
  }

  /**
   Once orbiting, a single cursor move brings the polar angle into [0, Pi]
   from anywhere, and the rest of the trace keeps it there.
   */
  lemma OrbitMoveThenRunKeepsPolar(c: CameraControl, x: real, y: real, es: seq<Event>)
    requires c.mode == Orbit
    ensures PolarInRange(Run(Step(c, CursorMoved(x, y)), es).pose.polar)
  {
    RunKeepsPolar(CursorPosition(c, x, y), es);
  }

  // ---------------------------------------------------------------------
  // Dragging

  predicate AllCursorMoves(es: seq<Event>) {
    forall i :: 0 <= i < |es| ==> es[i].CursorMoved?
  }

  /**
   While orbiting, a trace of cursor moves turns the azimuthal angle by the
   net horizontal displacement from the reference position to the last
   cursor position, whatever path the cursor took, and keeps the radius and
   the mode.
   */
  lemma {:induction false} DragAzimuthal(c: CameraControl, es: seq<Event>)
    requires c.mode == Orbit && |es| > 0 && AllCursorMoves(es)
    ensures Run(c, es).mode == Orbit
    ensures Run(c, es).pose.radius == c.pose.radius
    ensures Run(c, es).previousDrag == Vec2(es[|es| - 1].xpos, es[|es| - 1].ypos)
    ensures Run(c, es).pose.azimuthal - c.pose.azimuthal == (c.previousDrag.x - es[|es| - 1].xpos) / 400.0
    decreases |es|
  {
    var c1 := Step(c, es[0]);
    if |es| > 1 {
      var rest := es[1..];
      assert AllCursorMoves(rest) by {
        forall i | 0 <= i < |rest| ensures rest[i].CursorMoved? {
          assert rest[i] == es[i + 1];
        }
      }
      DragAzimuthal(c1, rest);
      assert rest[|rest| - 1] == es[|es| - 1];
    }
  }

  /**
   The polar angle every prefix of a drag would reach without clamping stays
   in [0, Pi].
   */
  predicate NeverClamped(c: CameraControl, es: seq<Event>)
    requires AllCursorMoves(es)
  {
    forall i :: 0 <= i < |es| ==> PolarInRange(UnclampedPolar(c, es[i].ypos))
  }

  /**
   While orbiting, a drag along which the clamp never bites turns the polar
   angle by exactly the net vertical displacement.
   */
  lemma {:induction false} DragPolar(c: CameraControl, es: seq<Event>)
    requires c.mode == Orbit && |es| > 0 && AllCursorMoves(es) && NeverClamped(c, es)
    ensures Run(c, es).pose.polar - c.pose.polar == (c.previousDrag.y - es[|es| - 1].ypos) / 400.0
    decreases |es|
  {
    var c1 := Step(c, es[0]);
    assert PolarInRange(UnclampedPolar(c, es[0].ypos));
    if |es| > 1 {
      var rest := es[1..];
      assert AllCursorMoves(rest) by {
        forall i | 0 <= i < |rest| ensures rest[i].CursorMoved? {
          assert rest[i] == es[i + 1];
        }
      }
      assert NeverClamped(c1, rest) by {
        forall i | 0 <= i < |rest| ensures PolarInRange(UnclampedPolar(c1, rest[i].ypos)) {
          assert rest[i] == es[i + 1];
          assert UnclampedPolar(c1, rest[i].ypos) == UnclampedPolar(c, es[i + 1].ypos);
        }
      }
      DragPolar(c1, rest);
      assert rest[|rest| - 1] == es[|es| - 1];
    }
  }

  /**
   Moving the cursor away and back to the reference position restores the
   azimuthal angle; it restores the polar angle too when the first move did
   not hit the clamp.
   */
  lemma DragThereAndBack(c: CameraControl, x: real, y: real)
    requires c.mode == Orbit
    ensures
      var r := Run(c, [CursorMoved(x, y), CursorMoved(c.previousDrag.x, c.previousDrag.y)]);
      r.pose.azimuthal == c.pose.azimuthal
      && r.previousDrag == c.previousDrag
      && (PolarInRange(c.pose.polar) && PolarInRange(UnclampedPolar(c, y)) ==> r.pose == c.pose)
  {
    var es := [CursorMoved(x, y), CursorMoved(c.previousDrag.x, c.previousDrag.y)];
    DragAzimuthal(c, es);
    if PolarInRange(c.pose.polar) && PolarInRange(UnclampedPolar(c, y)) {
      assert UnclampedPolar(c, c.previousDrag.y) == c.pose.polar;
      assert NeverClamped(c, es);
      DragPolar(c, es);
    }
  }

  /**
   A cursor move made while not orbiting only records the position, so the
   reference position held before it cannot influence anything afterwards.
   */
  lemma IdleMoveForgetsReference(c: CameraControl, d: CameraControl, x: real, y: real, es: seq<Event>)
    requires c.mode == None && c.pose == d.pose && c.mode == d.mode
    ensures Run(c, [CursorMoved(x, y)] + es) == Run(d, [CursorMoved(x, y)] + es)
  {
    var s := [CursorMoved(x, y)] + es;
    assert s[0] == CursorMoved(x, y) && s[1..] == es;
    assert Step(c, s[0]) == Step(d, s[0]);
  }

  // ---------------------------------------------------------------------
  // Scrolling

  /** A zero scroll keeps the whole state. */
  lemma ScrollZero(c: CameraControl, xoffset: real)
    ensures Scroll(c, xoffset, 0.0) == c
  {
  }

  /** From a positive radius, a scroll up by less than 100 zooms in and stays positive. */
  lemma ScrollInShrinks(c: CameraControl, xoffset: real, yoffset: real)
    requires 0.0 < c.pose.radius && 0.0 < yoffset < 100.0
    ensures 0.0 < Scroll(c, xoffset, yoffset).pose.radius < c.pose.radius
  {
  }

  /** From a positive radius, a scroll down zooms out. */
  lemma ScrollOutGrows(c: CameraControl, xoffset: real, yoffset: real)
    requires 0.0 < c.pose.radius && yoffset < 0.0
    ensures c.pose.radius < Scroll(c, xoffset, yoffset).pose.radius
  {
  }

  /**
   The radius is not bounded below: from a positive radius it stays positive
   exactly when the scroll is below 100, and a scroll of 100 or more takes it
   to zero or below.
   */
  lemma ScrollKeepsPositiveIff(c: CameraControl, xoffset: real, yoffset: real)
    requires 0.0 < c.pose.radius
    ensures 0.0 < Scroll(c, xoffset, yoffset).pose.radius <==> yoffset < 100.0
  {
    var r := Scroll(c, xoffset, yoffset).pose.radius;
    if yoffset < 100.0 {
      assert 0.0 < 100.0 - yoffset;
      assert 0.0 < c.pose.radius * (100.0 - yoffset);
    } else {
      assert 100.0 - yoffset <= 0.0;
      assert c.pose.radius * (100.0 - yoffset) <= 0.0;
    }
  }

  /** A concrete collapse: scrolling by 100 from the initial state gives radius 0. */
  lemma ScrollCollapsesRadius(polar: real, azimuthal: real, drag: Vec2)
    ensures Scroll(Initial(polar, azimuthal, drag), 0.0, 100.0).pose.radius == 0.0
  {
  }

  /** Two scrolls give the same state in either order. */
  lemma ScrollsCommute(c: CameraControl, x1: real, y1: real, x2: real, y2: real)
    ensures Scroll(Scroll(c, x1, y1), x2, y2) == Scroll(Scroll(c, x2, y2), x1, y1)
  {
    var a := c.pose.radius * ZoomFactor(y1) * ZoomFactor(y2);
    assert a == c.pose.radius * ZoomFactor(y2) * ZoomFactor(y1);
  }

  /** The product of the zoom factors of the scrolls in a trace. */
  function TotalZoom(es: seq<Event>): real
    decreases |es|
  {
    if |es| == 0 then 1.0
    else (if es[0].Scrolled? then ZoomFactor(es[0].yoffset) else 1.0) * TotalZoom(es[1..])
  }

  /**
   Only scrolls change the radius, and along any trace the radius is the
   start radius times the product of the scroll factors.
   */
  lemma {:induction false} RunRadius(c: CameraControl, es: seq<Event>)
    ensures Run(c, es).pose.radius == c.pose.radius * TotalZoom(es)
    decreases |es|
  {
    if |es| > 0 {
      var c1 := Step(c, es[0]);
      var f := if es[0].Scrolled? then ZoomFactor(es[0].yoffset) else 1.0;
      assert c1.pose.radius == c.pose.radius * f;
      RunRadius(c1, es[1..]);
      assert c1.pose.radius * TotalZoom(es[1..]) == c.pose.radius * (f * TotalZoom(es[1..]));
    }
  }

  /** A trace without scrolls keeps the radius. */
  lemma {:induction false} NoScrollKeepsRadius(c: CameraControl, es: seq<Event>)
    requires forall i :: 0 <= i < |es| ==> !es[i].Scrolled?
    ensures Run(c, es).pose.radius == c.pose.radius
    decreases |es|
  {
    if |es| > 0 {
      NoScrollKeepsRadius(Step(c, es[0]), es[1..]);
    }
  }
}
