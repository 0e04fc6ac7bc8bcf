/** The momentum panel of drag-with-custom-progress.js: content dragged along x,
    a per-frame ticker that damps the velocity, advances the offset and pulls the
    content back towards a violated bound, and a progress handle whose offset
    mirrors the scroll progress and can itself be dragged to scroll. */
module MomentumPanel {
  import opened JsMath
  import opened Wrappers

  /** `config.dampingFactor` */
  const DampingFactor: real := 0.85
  /** `config.velocityBoost` */
  const VelocityBoost: real := 1.2
  /** Share of the distance to a violated bound recovered per frame. */
  const PullBack: real := 0.2

  /** The ticker's state: `state.currentX` and `state.velocity`. */
  datatype Motion = Motion(currentX: real, velocity: real)

  /** The ticker's lower bound: minus the content's overflow, or 0 when the content
      fits; the upper bound is always 0. */
  function MinX(wrapperWidth: real, innerWidth: real): (r: real)
    ensures r <= 0.0 && r <= wrapperWidth - innerWidth
    ensures r == 0.0 || r == wrapperWidth - innerWidth
  {
    Min(0.0, wrapperWidth - innerWidth)
  }

  // ------------------------------------------------------------------
  // One ticker frame (lines 67-88)
  // ------------------------------------------------------------------

  /** `tickerUpdate` on the motion state, between the bounds `minX` and 0. */
  function TickStep(m: Motion, minX: real): (r: Motion)
    ensures r.velocity == m.velocity * DampingFactor || r.velocity == 0.0
    ensures r.velocity != 0.0 ==> r.currentX == m.currentX + r.velocity && minX <= r.currentX <= 0.0
  {
    var velocity := m.velocity * DampingFactor;
    var x := m.currentX + velocity;
    var afterMax := if x > 0.0 then Motion(x + (0.0 - x) * PullBack, 0.0) else Motion(x, velocity);
    if afterMax.currentX < minX then
      Motion(afterMax.currentX + (minX - afterMax.currentX) * PullBack, 0.0)
    else
      afterMax
  }

  /** A frame either damps the velocity by the damping factor or zeroes it; its
      magnitude never grows. */
  lemma TickNeverSpeedsUp(m: Motion, minX: real)
    ensures var r := TickStep(m, minX); r.velocity == DampingFactor * m.velocity || r.velocity == 0.0
    ensures Abs(TickStep(m, minX).velocity) <= Abs(m.velocity)
  {
  }

  /** Within the bounds a frame is plain damped motion: the content advances by the
      damped velocity, which it keeps. */
  lemma TickInsideBounds(m: Motion, minX: real)
    requires minX <= 0.0
    requires minX <= m.currentX + DampingFactor * m.velocity <= 0.0
    ensures TickStep(m, minX) == Motion(m.currentX + DampingFactor * m.velocity, DampingFactor * m.velocity)
  {
  }

  /** Past a bound a frame stops the content and recovers a fifth of the distance to
      that bound, without crossing it. */
  lemma TickPullsBack(m: Motion, minX: real)
    requires minX <= 0.0
    ensures var x := m.currentX + DampingFactor * m.velocity; var r := TickStep(m, minX);
            x > 0.0 ==> r.velocity == 0.0 && r.currentX == 0.8 * x && 0.0 < r.currentX < x
    ensures var x := m.currentX + DampingFactor * m.velocity; var r := TickStep(m, minX);
            x < minX ==> r.velocity == 0.0 && minX - r.currentX == 0.8 * (minX - x) && x < r.currentX < minX
  {
  }

  /** `k` consecutive frames with unchanged bounds. */
  function Ticks(m: Motion, minX: real, k: nat): Motion
    decreases k
  {
    if k == 0 then m else Ticks(TickStep(m, minX), minX, k - 1)
  }

  /** Without new drag input the speed never exceeds the speed at release. */
  lemma {:induction false} TicksNeverSpeedUp(m: Motion, minX: real, k: nat)
    ensures Abs(Ticks(m, minX, k).velocity) <= Abs(m.velocity)
    decreases k
  {
    if k > 0 {
      TickNeverSpeedsUp(m, minX);
      TicksNeverSpeedUp(TickStep(m, minX), minX, k - 1);
    }
  }

  /** Content at rest past the upper bound springs back geometrically: after `k`
      frames it is `0.8^k` of its overshoot away from 0. */
  lemma {:induction false} RestingOvershootDecays(x: real, minX: real, k: nat)
    requires minX <= 0.0 && x > 0.0
    ensures Ticks(Motion(x, 0.0), minX, k) == Motion(Pow(0.8, k) * x, 0.0)
    decreases k
  {
    if k > 0 {
      assert TickStep(Motion(x, 0.0), minX) == Motion(0.8 * x, 0.0);
      RestingOvershootDecays(0.8 * x, minX, k - 1);
      assert Pow(0.8, k - 1) * (0.8 * x) == (0.8 * Pow(0.8, k - 1)) * x;
    }
  }

  /** Content at rest below the lower bound springs back the same way towards it. */
  lemma {:induction false} RestingUndershootDecays(x: real, minX: real, k: nat)
    requires minX <= 0.0 && x < minX
    ensures Ticks(Motion(x, 0.0), minX, k) == Motion(minX - Pow(0.8, k) * (minX - x), 0.0)
    decreases k
  {
    if k > 0 {
      var next := minX - 0.8 * (minX - x);
      assert TickStep(Motion(x, 0.0), minX) == Motion(next, 0.0);
      RestingUndershootDecays(next, minX, k - 1);
      assert minX - next == 0.8 * (minX - x);
      assert Pow(0.8, k - 1) * (0.8 * (minX - x)) == (0.8 * Pow(0.8, k - 1)) * (minX - x);
    }
  }

  /** Content at rest within the bounds stays where it is. */
  lemma RestIsFixedPoint(x: real, minX: real)
    requires minX <= x <= 0.0
    ensures TickStep(Motion(x, 0.0), minX) == Motion(x, 0.0)
  {
  }

  // ------------------------------------------------------------------
  // Handle offset and its inverse (lines 40-62 and 143-159)
  // ------------------------------------------------------------------

  /** The progress of `updateProgressBlock`: the scrolled share of the overflow,
      clamped into `[0, 1]`. */
  function ScrollProgress(currentX: real, maxScroll: real): (r: real)
    requires maxScroll > 0.0
    ensures 0.0 <= r <= 1.0
  {
    Clamp(Abs(currentX) / maxScroll, 0.0, 1.0)
  }

  /** The handle offset `updateProgressBlock` sets: 0 when the content does not
      overflow, otherwise the progress scaled to the free track. */
  function HandleOffset(currentX: real, maxScroll: real, maxBlockX: real): (r: real)
    ensures maxScroll <= 0.0 ==> r == 0.0
    ensures maxBlockX >= 0.0 ==> 0.0 <= r <= maxBlockX
  {
    if maxScroll <= 0.0 then 0.0
    else
      var progress := ScrollProgress(currentX, maxScroll);
      ScaleUnit(progress, maxBlockX);
      progress * maxBlockX
  }

  /** The block drag's `onDrag`: the content offset for handle offset `handleX`, or
      nothing when the track leaves the handle no room. */
  function OffsetForHandle(handleX: real, maxBlockX: real, maxScroll: real): (r: Option<real>)
    ensures r.None? <==> maxBlockX <= 0.0
    ensures r.Some? && maxScroll >= 0.0 ==> -maxScroll <= r.value <= 0.0
  {
    if maxBlockX <= 0.0 then None
    else
      var progress := Clamp(handleX / maxBlockX, 0.0, 1.0);
      ScaleUnit(progress, maxScroll);
      Some(-progress * maxScroll)
  }

  /** Dragging the handle and then laying it out again reproduces the handle's
      progress, and so the handle itself when it lies on the track. */
  lemma {:induction false} HandleRoundTrip(handleX: real, maxBlockX: real, maxScroll: real)
    requires maxBlockX > 0.0 && maxScroll > 0.0
    ensures ScrollProgress(OffsetForHandle(handleX, maxBlockX, maxScroll).value, maxScroll)
            == Clamp(handleX / maxBlockX, 0.0, 1.0)
    ensures 0.0 <= handleX <= maxBlockX ==>
            HandleOffset(OffsetForHandle(handleX, maxBlockX, maxScroll).value, maxScroll, maxBlockX) == handleX
  {
    var p := Clamp(handleX / maxBlockX, 0.0, 1.0);
    var x := OffsetForHandle(handleX, maxBlockX, maxScroll).value;
    assert x == -p * maxScroll;
    ProgressOfScaledOffset(p, maxScroll);
    if 0.0 <= handleX <= maxBlockX {
      DivideUnit(handleX, maxBlockX);
      assert p == handleX / maxBlockX;
      assert HandleOffset(x, maxScroll, maxBlockX) == p * maxBlockX;
      MulCongruence(p, handleX / maxBlockX, maxBlockX);
      DivMul(handleX, maxBlockX);
    }
  }

  /** Content a fraction `p` of the way along the scroll range reads back as
      progress `p`. */
  lemma ProgressOfScaledOffset(p: real, maxScroll: real)
    requires 0.0 <= p <= 1.0 && maxScroll > 0.0
    ensures ScrollProgress(-p * maxScroll, maxScroll) == p
  {
    NegateProduct(p, maxScroll);
    ScaleUnit(p, maxScroll);
    AbsNegate(p * maxScroll);
    DivCongruence(Abs(-p * maxScroll), p * maxScroll, maxScroll);
    MulDiv(p, maxScroll);
  }

  lemma AbsNegate(q: real)
    requires q >= 0.0
    ensures Abs(-q) == q
  {
  }

  /** Laying out the handle for content within the scroll range and then dragging
      the handle there puts the content back where it was. */
  lemma {:induction false} ContentRoundTrip(currentX: real, maxScroll: real, maxBlockX: real)
    requires maxBlockX > 0.0 && maxScroll > 0.0 && -maxScroll <= currentX <= 0.0
    ensures OffsetForHandle(HandleOffset(currentX, maxScroll, maxBlockX), maxBlockX, maxScroll) == Some(currentX)
  {
    DivideUnit(Abs(currentX), maxScroll);
    assert ScrollProgress(currentX, maxScroll) == Abs(currentX) / maxScroll;
    assert HandleOffset(currentX, maxScroll, maxBlockX) == ScrollProgress(currentX, maxScroll) * maxBlockX;
    MulCongruence(ScrollProgress(currentX, maxScroll), Abs(currentX) / maxScroll, maxBlockX);
    DivCongruence(HandleOffset(currentX, maxScroll, maxBlockX), Abs(currentX) / maxScroll * maxBlockX, maxBlockX);
    MulDiv(Abs(currentX) / maxScroll, maxBlockX);
    assert Clamp(HandleOffset(currentX, maxScroll, maxBlockX) / maxBlockX, 0.0, 1.0) == Abs(currentX) / maxScroll;
    OffsetForHandleWithRoom(HandleOffset(currentX, maxScroll, maxBlockX), maxBlockX, maxScroll);
    MulCongruence(-Clamp(HandleOffset(currentX, maxScroll, maxBlockX) / maxBlockX, 0.0, 1.0),
                  -(Abs(currentX) / maxScroll), maxScroll);
    OffsetOfProgress(currentX, maxScroll);
    assert -Clamp(HandleOffset(currentX, maxScroll, maxBlockX) / maxBlockX, 0.0, 1.0) * maxScroll == currentX;
    assert OffsetForHandle(HandleOffset(currentX, maxScroll, maxBlockX), maxBlockX, maxScroll).value == currentX;
  }

  lemma OffsetForHandleWithRoom(handleX: real, maxBlockX: real, maxScroll: real)
    requires maxBlockX > 0.0
    ensures OffsetForHandle(handleX, maxBlockX, maxScroll) == Some(-Clamp(handleX / maxBlockX, 0.0, 1.0) * maxScroll)
  {
  }

  /** Scaling the scrolled fraction back by the range recovers the offset. */
  lemma OffsetOfProgress(currentX: real, maxScroll: real)
    requires maxScroll > 0.0 && currentX <= 0.0
    ensures -(Abs(currentX) / maxScroll) * maxScroll == currentX
  {
    var q := -currentX;
    assert Abs(currentX) == q;
    DivCongruence(Abs(currentX), q, maxScroll);
    MulCongruence(-(Abs(currentX) / maxScroll), -(q / maxScroll), maxScroll);
    DivMul(q, maxScroll);
    NegateProduct(q / maxScroll, maxScroll);
  }

  lemma MulCongruence(a: real, b: real, c: real)
    requires a == b
    ensures a * c == b * c
  {
  }

  lemma DivCongruence(a: real, b: real, c: real)
    requires a == b && c != 0.0
    ensures a / c == b / c
  {
  }

  lemma NegateProduct(a: real, b: real)
    ensures -a * b == -(a * b)
  {
  }

  lemma MulDiv(a: real, b: real)
    requires b > 0.0
    ensures a * b / b == a
  {
  }

  lemma DivMul(a: real, b: real)
    requires b > 0.0
    ensures a / b * b == a
  {
  }

  lemma DivideUnit(a: real, b: real)
    requires 0.0 <= a <= b && b > 0.0
    ensures 0.0 <= a / b <= 1.0
  {
  }

  // ------------------------------------------------------------------
  // One panel instance (`state` of initSlider)
  // ------------------------------------------------------------------

  class Panel {
    /** Both `.drag-track` and `.drag-block` exist. */
    const hasTrack: bool
    /** `state.currentX`: the content's offset, 0 at rest on the left edge. */
    var currentX: real
    /** `state.velocity` in pixels per frame. */
    var velocity: real
    /** The progress block's offset along the track. */
    var blockX: real

    /** `initSlider` after its first `updateProgressBlock`: at rest on the left edge,
        with the handle at the start of the track. */
    constructor (hasTrack: bool)
      ensures this.hasTrack == hasTrack
      ensures currentX == 0.0 && velocity == 0.0 && blockX == 0.0
    {
      this.hasTrack := hasTrack;
      currentX := 0.0;
      velocity := 0.0;
      blockX := 0.0;
    }

    function State(): Motion
      reads this
    {
      Motion(currentX, velocity)
    }

    /** `updateProgressBlock` with the current measurements. */
    method UpdateProgressBlock(wrapperWidth: real, innerWidth: real, trackWidth: real, blockWidth: real)
      modifies this`blockX
      ensures hasTrack ==> blockX == HandleOffset(currentX, innerWidth - wrapperWidth, trackWidth - blockWidth)
      ensures !hasTrack ==> blockX == old(blockX)
    {
      if !hasTrack {
        return;
      }
      var maxScroll := innerWidth - wrapperWidth;
      if maxScroll <= 0.0 {
        blockX := 0.0;
        return;
      }
      var progress := Abs(currentX) / maxScroll;
      progress := Max(0.0, Min(1.0, progress));
      var maxBlockX := trackWidth - blockWidth;
      blockX := progress * maxBlockX;
    }

    /** `tickerUpdate`: one frame of damped motion with the rubber-band correction,
        then the handle follows. */
    method Tick(wrapperWidth: real, innerWidth: real, trackWidth: real, blockWidth: real)
      modifies this`currentX, this`velocity, this`blockX
      ensures State() == TickStep(old(State()), MinX(wrapperWidth, innerWidth))
      ensures hasTrack ==> blockX == HandleOffset(currentX, innerWidth - wrapperWidth, trackWidth - blockWidth)
      ensures !hasTrack ==> blockX == old(blockX)
    {
      velocity := velocity * DampingFactor;
      currentX := currentX + velocity;
      var minX := Min(0.0, wrapperWidth - innerWidth);
      var maxX := 0.0;
      if currentX > maxX {
        currentX := currentX + (maxX - currentX) * PullBack;
        velocity := 0.0;
      }
      if currentX < minX {
        currentX := currentX + (minX - currentX) * PullBack;
        velocity := 0.0;
      }
      UpdateProgressBlock(wrapperWidth, innerWidth, trackWidth, blockWidth);
    }

    /** The content drag's `onPress`: a touch stops the momentum. */
    method OnContentPress()
      modifies this`velocity
      ensures velocity == 0.0
    {
      velocity := 0.0;
    }

    /** The content drag's `onDrag` once Draggable has moved the content to `newX`:
        the velocity becomes this event's displacement. */
    method OnContentDrag(newX: real, wrapperWidth: real, innerWidth: real, trackWidth: real, blockWidth: real)
      modifies this`currentX, this`velocity, this`blockX
      ensures velocity == newX - old(currentX) && currentX == newX
      ensures old(currentX) + velocity == currentX
      ensures hasTrack ==> blockX == HandleOffset(newX, innerWidth - wrapperWidth, trackWidth - blockWidth)
      ensures !hasTrack ==> blockX == old(blockX)
    {
      velocity := newX - currentX;
      currentX := newX;
      UpdateProgressBlock(wrapperWidth, innerWidth, trackWidth, blockWidth);
    }

    /** The content drag's `onDragEnd`: the release boosts the flick. */
    method OnContentDragEnd()
      modifies this`velocity
      ensures velocity == VelocityBoost * old(velocity)
    {
      velocity := velocity * VelocityBoost;
    }

    /** The handle drag's `onPress`. */
    method OnBlockPress()
      requires hasTrack
      modifies this`velocity
      ensures velocity == 0.0
    {
      velocity := 0.0;
    }

    /** The handle drag's `onDrag` once Draggable has moved the handle to `handleX`:
        the content jumps to the matching scroll offset, unless the track leaves the
        handle no room. */
    method OnBlockDrag(handleX: real, trackWidth: real, blockWidth: real, wrapperWidth: real, innerWidth: real)
      requires hasTrack
      modifies this`currentX, this`blockX
      ensures blockX == handleX
      ensures currentX == match OffsetForHandle(handleX, trackWidth - blockWidth, innerWidth - wrapperWidth)
                          case None => old(currentX)
                          case Some(x) => x
    {
      blockX := handleX;
      var maxBlockX := trackWidth - blockWidth;
      if maxBlockX <= 0.0 {
        return;
      }
      var progress := handleX / maxBlockX;
      progress := Max(0.0, Min(1.0, progress));
      var maxScroll := innerWidth - wrapperWidth;
      currentX := -progress * maxScroll;
    }

    /** The handle drag's `onDragEnd`: no momentum after a handle drag. */
    method OnBlockDragEnd()
      requires hasTrack
      modifies this`velocity
      ensures velocity == 0.0
    {
      velocity := 0.0;
    }
  }
}
