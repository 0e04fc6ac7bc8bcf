/** The native-scroll slider of drag-with-native-scroll-bar.js: Draggable scrolls
    the container, and after release a per-frame ticker plays back the momentum on
    `targetScroll` until the speed falls below a threshold. */
module NativeScroll {
  import opened JsMath

  /** `config.dampingFactor` */
  const DampingFactor: real := 0.85
  /** `config.velocityBoost` */
  const VelocityBoost: real := 1.2
  /** Share of the distance to a violated bound recovered per frame. */
  const PullBack: real := 0.2
  /** Playback stops once the speed is below this many pixels per frame. */
  const StopThreshold: real := 0.1

  /** The ticker's state: `state.targetScroll`, `state.velocity`, `state.isScrolling`. */
  datatype Playback = Playback(targetScroll: real, velocity: real, isScrolling: bool)

  // ------------------------------------------------------------------
  // One ticker frame (lines 59-83)
  // ------------------------------------------------------------------

  /** `tickerUpdate` for a container whose scroll range ends at `maxScroll`, its
      scroll width less its offset width. */
  function TickStep(s: Playback, maxScroll: real): (r: Playback)
    ensures r.velocity == s.velocity || r.velocity == s.velocity * DampingFactor || r.velocity == 0.0
    ensures r.isScrolling ==> Abs(r.velocity) >= StopThreshold
    ensures s.isScrolling && r.velocity != 0.0 ==> r.targetScroll == s.targetScroll + r.velocity
  {
    if !s.isScrolling then s
    else
      var velocity := s.velocity * DampingFactor;
      var target := s.targetScroll + velocity;
      var afterMin := if target < 0.0 then Playback(target + (0.0 - target) * PullBack, 0.0, true)
                      else Playback(target, velocity, true);
      var afterMax := if afterMin.targetScroll > maxScroll
                      then Playback(afterMin.targetScroll + (maxScroll - afterMin.targetScroll) * PullBack, 0.0, true)
                      else afterMin;
      afterMax.(isScrolling := !(Abs(afterMax.velocity) < StopThreshold))
  }

  /** Nothing moves while playback is off. */
  lemma IdleTickChangesNothing(s: Playback, maxScroll: real)
    requires !s.isScrolling
    ensures TickStep(s, maxScroll) == s
  {
  }

  /** A playing frame damps the speed or zeroes it, and playback goes on exactly
      while the speed is at least the threshold. */
  lemma TickDampsAndGates(s: Playback, maxScroll: real)
    requires s.isScrolling
    ensures var r := TickStep(s, maxScroll); r.velocity == DampingFactor * s.velocity || r.velocity == 0.0
    ensures Abs(TickStep(s, maxScroll).velocity) <= Abs(s.velocity)
    ensures TickStep(s, maxScroll).isScrolling <==> Abs(TickStep(s, maxScroll).velocity) >= StopThreshold
  {
  }

  /** Inside the scroll range a playing frame advances by the damped velocity. */
  lemma TickInsideRange(s: Playback, maxScroll: real)
    requires s.isScrolling
    requires 0.0 <= s.targetScroll + DampingFactor * s.velocity <= maxScroll
    ensures TickStep(s, maxScroll).targetScroll == s.targetScroll + DampingFactor * s.velocity
    ensures TickStep(s, maxScroll).velocity == DampingFactor * s.velocity
  {
  }

  /** Outside the scroll range a playing frame zeroes the speed, which ends playback
      whatever the range; on a range that is not empty it also pulls a fifth of the
      way back towards the violated end without crossing it. */
  lemma TickCorrectionEndsPlayback(s: Playback, maxScroll: real)
    requires s.isScrolling
    ensures var t := s.targetScroll + DampingFactor * s.velocity; var r := TickStep(s, maxScroll);
            (t < 0.0 || t > maxScroll) ==> r.velocity == 0.0 && !r.isScrolling
    ensures var t := s.targetScroll + DampingFactor * s.velocity; var r := TickStep(s, maxScroll);
            maxScroll >= 0.0 && t < 0.0 ==> r.targetScroll == 0.8 * t && t < r.targetScroll < 0.0
    ensures var t := s.targetScroll + DampingFactor * s.velocity; var r := TickStep(s, maxScroll);
            maxScroll >= 0.0 && t > maxScroll ==> maxScroll - r.targetScroll == 0.8 * (maxScroll - t) && maxScroll < r.targetScroll < t
  {
  }

  /** `k` consecutive frames over an unchanged scroll range. */
  function Run(s: Playback, maxScroll: real, k: nat): Playback
    decreases k
  {
    if k == 0 then s else TickStep(Run(s, maxScroll, k - 1), maxScroll)
  }

  /** A speed `v` damped over `k` frames. */
  function DampedSpeed(v: real, k: nat): real
    decreases k
  {
    if k == 0 then v else DampingFactor * DampedSpeed(v, k - 1)
  }

  lemma {:induction false} DampedSpeedIsPow(v: real, k: nat)
    ensures DampedSpeed(v, k) == Pow(DampingFactor, k) * v
    decreases k
  {
    if k > 0 {
      DampedSpeedIsPow(v, k - 1);
      PowStep(DampingFactor, k, v);
    }
  }

  lemma PowStep(b: real, k: nat, v: real)
    requires k >= 1
    ensures Pow(b, k) * v == b * (Pow(b, k - 1) * v)
  {
  }

  /** While playback lasts, the speed after `k` frames is at most the release
      speed damped `k` times. */
  lemma {:induction false} RunSpeedDecays(s: Playback, maxScroll: real, k: nat)
    ensures Run(s, maxScroll, k).isScrolling ==>
            Abs(Run(s, maxScroll, k).velocity) <= DampedSpeed(Abs(s.velocity), k)
    decreases k
  {
    if k > 0 {
      var prev := Run(s, maxScroll, k - 1);
      RunSpeedDecays(s, maxScroll, k - 1);
      if prev.isScrolling {
        StepSpeedBound(prev, maxScroll, DampedSpeed(Abs(s.velocity), k - 1));
      } else {
        IdleTickChangesNothing(prev, maxScroll);
      }
    }
  }

  lemma StepSpeedBound(s: Playback, maxScroll: real, bound: real)
    requires s.isScrolling && Abs(s.velocity) <= bound
    ensures Abs(TickStep(s, maxScroll).velocity) <= DampingFactor * bound
  {
    TickDampsAndGates(s, maxScroll);
  }

  lemma {:induction false} PowNonNegative(b: real, k: nat)
    requires b >= 0.0
    ensures Pow(b, k) >= 0.0
    decreases k
  {
    if k > 0 {
      PowNonNegative(b, k - 1);
    }
  }

  /** `0.85^k <= 17 / (17 + 3k)`, from Bernoulli's inequality on `1 / 0.85`. */
  lemma {:induction false} DampingBound(k: nat)
    ensures Pow(DampingFactor, k) * (17.0 + 3.0 * k as real) <= 17.0
    decreases k
  {
    if k > 0 {
      var p := Pow(DampingFactor, k - 1);
      var m := (k - 1) as real;
      DampingBound(k - 1);
      PowNonNegative(DampingFactor, k - 1);
      assert DampingFactor * (20.0 + 3.0 * m) <= 17.0 + 3.0 * m;
      MulMonotone(p, DampingFactor * (20.0 + 3.0 * m), 17.0 + 3.0 * m);
      assert Pow(DampingFactor, k) * (17.0 + 3.0 * k as real) == p * (DampingFactor * (20.0 + 3.0 * m));
    }
  }

  lemma MulMonotone(p: real, a: real, b: real)
    requires p >= 0.0 && a <= b
    ensures p * a <= p * b
  {
  }

  /** Playback always ends: once at least one frame has passed and
      `3k + 17 > 170 * |v|`, a released speed `v` has decayed below the threshold,
      or a correction has zeroed it. */
  lemma PlaybackEnds(s: Playback, maxScroll: real, k: nat)
    requires k >= 1 && 3.0 * k as real + 17.0 > 170.0 * Abs(s.velocity)
    ensures !Run(s, maxScroll, k).isScrolling
  {
    RunSpeedDecays(s, maxScroll, k);
    RunGates(s, maxScroll, k);
    DampedSpeedBelowThreshold(Abs(s.velocity), k);
  }

  /** A speed `v` damped over `k` frames is below the threshold once `3k + 17 > 170 v`. */
  lemma DampedSpeedBelowThreshold(v: real, k: nat)
    requires v >= 0.0 && 3.0 * k as real + 17.0 > 170.0 * v
    ensures DampedSpeed(v, k) < StopThreshold
  {
    DampedSpeedIsPow(v, k);
    DampingBound(k);
    PowNonNegative(DampingFactor, k);
    SpeedBelowThreshold(Pow(DampingFactor, k), v, 3.0 * k as real + 17.0);
  }

  /** After at least one frame, playback is on only at or above the threshold. */
  lemma RunGates(s: Playback, maxScroll: real, k: nat)
    requires k > 0
    ensures Run(s, maxScroll, k).isScrolling ==> Abs(Run(s, maxScroll, k).velocity) >= StopThreshold
  {
    var prev := Run(s, maxScroll, k - 1);
    if prev.isScrolling {
      TickDampsAndGates(prev, maxScroll);
    }
  }

  lemma SpeedBelowThreshold(p: real, v: real, d: real)
    requires p >= 0.0 && v >= 0.0 && d > 0.0
    requires p * d <= 17.0 && d > 170.0 * v
    ensures p * v < StopThreshold
  {
    MulMonotone(p, 170.0 * v, d);
    assert p * (170.0 * v) == 170.0 * (p * v);
  }

  // ------------------------------------------------------------------
  // Drag velocity (lines 106-111)
  // ------------------------------------------------------------------

  /** The velocity `onDrag` records as written: how far the scroll moved back. */
  function DragVelocityAsWritten(previousScroll: real, newScroll: real): (r: real)
    ensures newScroll + r == previousScroll
  {
    previousScroll - newScroll
  }

  /** The per-event scroll delta, in the direction the drag moved the scroll. */
  function DragVelocity(previousScroll: real, newScroll: real): (r: real)
    ensures previousScroll + r == newScroll
  {
    newScroll - previousScroll
  }

  /** The target scroll one frame after the last drag event and the release, given
      the velocity that drag event left. */
  function FirstFrameAfterRelease(newScroll: real, dragVelocity: real, maxScroll: real): real {
    TickStep(Playback(newScroll, dragVelocity * VelocityBoost, true), maxScroll).targetScroll
  }

  /** As written, a fling that scrolled forward moves back on release: a last drag
      event from 100 to 110 is followed by a frame at 99.8. */
  lemma FlingReversesAsWritten()
    ensures FirstFrameAfterRelease(110.0, DragVelocityAsWritten(100.0, 110.0), 1000.0) == 99.8
  {
  }

  /** As written, whenever the rebound stays in range, the first frame after release
      moves against the drag. */
  lemma FlingOpposesDragAsWritten(previousScroll: real, newScroll: real, maxScroll: real)
    requires previousScroll != newScroll
    requires var t := newScroll + DampingFactor * VelocityBoost * DragVelocityAsWritten(previousScroll, newScroll);
             0.0 <= t <= maxScroll
    ensures var t := FirstFrameAfterRelease(newScroll, DragVelocityAsWritten(previousScroll, newScroll), maxScroll);
            (newScroll > previousScroll ==> t < newScroll) && (newScroll < previousScroll ==> t > newScroll)
  {
  }

  /** With the delta taken in the drag's direction, the first frame after release
      carries on the way the drag was going. */
  lemma FlingFollowsDrag(previousScroll: real, newScroll: real, maxScroll: real)
    requires previousScroll != newScroll
    requires var t := newScroll + DampingFactor * VelocityBoost * DragVelocity(previousScroll, newScroll);
             0.0 <= t <= maxScroll
    ensures var t := FirstFrameAfterRelease(newScroll, DragVelocity(previousScroll, newScroll), maxScroll);
            (newScroll > previousScroll ==> t > newScroll) && (newScroll < previousScroll ==> t < newScroll)
  {
  }

  // ------------------------------------------------------------------
  // One slider instance (`state` of initSlider and the closure of createDraggable)
  // ------------------------------------------------------------------

  class NativeScrollSlider {
    /** `state.velocity` in pixels per frame. */
    var velocity: real
    /** `state.targetScroll`: where playback wants the scroll to be. */
    var targetScroll: real
    /** `state.isScrolling`: momentum playback is on. */
    var isScrolling: bool
    /** `startScroll` of the current Draggable's closure: the scroll at the last
        press or drag event. */
    var startScroll: real
    /** `container.scrollLeft` */
    var scrollLeft: real

    function State(): Playback
      reads this
    {
      Playback(targetScroll, velocity, isScrolling)
    }

    /** `initSlider`: a fresh Draggable and the target synchronised with the
        container's scroll. */
    constructor (initialScrollLeft: real)
      ensures scrollLeft == initialScrollLeft && targetScroll == initialScrollLeft
      ensures velocity == 0.0 && !isScrolling && startScroll == 0.0
    {
      velocity := 0.0;
      targetScroll := 0.0;
      isScrolling := false;
      startScroll := 0.0;
      scrollLeft := initialScrollLeft;
      targetScroll := scrollLeft;
    }

    /** `tickerUpdate`: one frame of playback, written through to the container. */
    method Tick(scrollWidth: real, offsetWidth: real)
      modifies this`velocity, this`targetScroll, this`isScrolling, this`scrollLeft
      ensures State() == TickStep(old(State()), scrollWidth - offsetWidth)
      ensures old(isScrolling) ==> scrollLeft == targetScroll
      ensures !old(isScrolling) ==> scrollLeft == old(scrollLeft)
    {
      if !isScrolling {
        return;
      }
      velocity := velocity * DampingFactor;
      targetScroll := targetScroll + velocity;
      var maxScroll := scrollWidth - offsetWidth;
      if targetScroll < 0.0 {
        targetScroll := targetScroll + (0.0 - targetScroll) * PullBack;
        velocity := 0.0;
      }
      if targetScroll > maxScroll {
        targetScroll := targetScroll + (maxScroll - targetScroll) * PullBack;
        velocity := 0.0;
      }
      scrollLeft := targetScroll;
      if Abs(velocity) < StopThreshold {
        isScrolling := false;
      }
    }

    /** The user scrolls the container natively (scroll bar, wheel or touch) outside a
        drag: the browser moves `scrollLeft` and nothing in the slider's state. */
    method OnNativeScroll(newScrollLeft: real)
      modifies this`scrollLeft
      ensures scrollLeft == newScrollLeft
    {
      scrollLeft := newScrollLeft;
    }

    /** `onPress`: a touch stops playback and anchors the drag at the current scroll. */
    method OnPress()
      modifies this`velocity, this`isScrolling, this`startScroll, this`targetScroll
      ensures velocity == 0.0 && !isScrolling
      ensures startScroll == scrollLeft && targetScroll == scrollLeft
    {
      velocity := 0.0;
      isScrolling := false;
      startScroll := scrollLeft;
      targetScroll := startScroll;
    }

    /** `onDrag` as written, once Draggable has scrolled the container to `newScroll`. */
    method OnDragAsWritten(newScroll: real)
      modifies this`scrollLeft, this`velocity, this`targetScroll, this`startScroll
      ensures scrollLeft == newScroll
      ensures velocity == DragVelocityAsWritten(old(startScroll), newScroll)
      ensures targetScroll == newScroll && startScroll == newScroll
    {
      scrollLeft := newScroll;
      velocity := startScroll - newScroll;
      targetScroll := newScroll;
      startScroll := newScroll;
    }

    /** `onDrag` with the velocity taken in the drag's direction. */
    method OnDrag(newScroll: real)
      modifies this`scrollLeft, this`velocity, this`targetScroll, this`startScroll
      ensures scrollLeft == newScroll
      ensures velocity == DragVelocity(old(startScroll), newScroll)
      ensures targetScroll == newScroll && startScroll == newScroll
    {
      scrollLeft := newScroll;
      velocity := newScroll - startScroll;
      targetScroll := newScroll;
      startScroll := newScroll;
    }

    /** `onDragEnd`: boost the last delta and start playback. */
    method OnDragEnd()
      modifies this`velocity, this`isScrolling
      ensures velocity == VelocityBoost * old(velocity) && isScrolling
    {
      velocity := velocity * VelocityBoost;
      isScrolling := true;
    }

    /** `handleResize`: a fresh Draggable, whose closure starts from 0, and the target
        resynchronised with the container; velocity and playback are kept. */
    method HandleResize()
      modifies this`startScroll, this`targetScroll
      ensures startScroll == 0.0 && targetScroll == scrollLeft
    {
      startScroll := 0.0;
      targetScroll := scrollLeft;
    }
  }

  /** After the user scrolls the container natively, a press anchors the drag and the
      playback target at the new scroll, not at the last value the slider wrote. */
  method PressAfterNativeScroll(slider: NativeScrollSlider, newScrollLeft: real)
    modifies slider
    ensures slider.scrollLeft == newScrollLeft
    ensures slider.startScroll == newScrollLeft && slider.targetScroll == newScrollLeft
    ensures slider.velocity == 0.0 && !slider.isScrolling
  {
    slider.OnNativeScroll(newScrollLeft);
    slider.OnPress();
  }

  /** After the user scrolls the container natively, a resize resynchronises the
      playback target with the new scroll. */
  method ResizeAfterNativeScroll(slider: NativeScrollSlider, newScrollLeft: real)
    modifies slider
    ensures slider.scrollLeft == newScrollLeft && slider.targetScroll == newScrollLeft
    ensures slider.startScroll == 0.0
    ensures slider.velocity == old(slider.velocity) && slider.isScrolling == old(slider.isScrolling)
  {
    slider.OnNativeScroll(newScrollLeft);
    slider.HandleResize();
  }
}
