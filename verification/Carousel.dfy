/** The infinite carousel of gsap-slider.js: original slides framed by clones on
    both sides, an index into that strip, and a wrap correction that jumps back by
    one cycle of `numSlides` whenever a tween leaves the index outside the originals. */
module Carousel {
  import opened JsMath
  import opened Wrappers

  /** Fewest clones placed on each side of the originals. */
  const MinClones: int := 3
  /** Width in pixels of the draggable progress block (`config.progressBlockWidth`). */
  const ProgressBlockWidth: real := 50.0

  /** The slide tween running on the strip, with the offset it ends at. */
  datatype Animation = Stopped | Running(targetX: real)

  /** Outcome of building the slide strip. */
  datatype CloneResult =
    | Built(slides: seq<int>)
    | CloneIndexOutOfRange(index: int)

  // ------------------------------------------------------------------
  // Layout arithmetic
  // ------------------------------------------------------------------

  /** Slides per view: the container width in slide pitches, rounded up, i.e. the
      fewest slide pitches that reach across the container. */
  function SlidesPerView(containerWidth: real, pitch: real): (r: int)
    requires pitch > 0.0
    ensures (r - 1) as real < containerWidth / pitch <= r as real
  {
    Ceil(containerWidth / pitch)
  }

  /** Clones on each side: one more than the slides per view, and never fewer than
      `MinClones`. */
  function ClonesToCreate(slidesPerView: int): (r: int)
    ensures r >= MinClones && r > slidesPerView
    ensures r == MinClones || r == slidesPerView + 1
  {
    if slidesPerView + 1 >= MinClones then slidesPerView + 1 else MinClones
  }

  /** `calculatePosition`: the strip offset that brings slide `index`, whose left
      edge sits `index` pitches into the strip, to the left edge of the container. */
  function Position(index: real, slideWidth: real, gap: real): (r: real)
    ensures r + index * (slideWidth + gap) == 0.0
  {
    -(slideWidth + gap) * index
  }

  /** Moving the index by `k` slides moves the strip by `k` pitches the other way. */
  lemma PositionShift(index: real, k: real, slideWidth: real, gap: real)
    ensures Position(index + k, slideWidth, gap) == Position(index, slideWidth, gap) - k * (slideWidth + gap)
  {
    var p := slideWidth + gap;
    assert -p * (index + k) == -p * index - p * k;
  }

  /** The strip layout: `n + 2 * clones` slides, position `p` showing original
      `(p - clones) mod n`. */
  ghost predicate SlideLayout(slides: seq<int>, n: int, clones: int)
    requires n >= 1
  {
    && |slides| == n + 2 * clones
    && forall p :: 0 <= p < |slides| ==> slides[p] == (p - clones) % n
  }

  // ------------------------------------------------------------------
  // Building the strip (lines 66-78)
  // ------------------------------------------------------------------

  /** The two clone loops as written: the append loop cycles through the originals
      from the first, the prepend loop counts down from the last without wrapping,
      so it reads before the first original once it has used all `n`. */
  method CloneSlidesAsWritten(n: int, clones: int) returns (r: CloneResult)
    requires n >= 1 && clones >= 0
    ensures r.Built? <==> clones <= n
    ensures r.Built? ==> SlideLayout(r.slides, n, clones)
    ensures r.CloneIndexOutOfRange? ==> r.index == -1
  {
    var slides := Originals(n);
    var i := 0;
    while i < clones
      invariant 0 <= i <= clones
      invariant |slides| == n + i
      invariant forall p :: 0 <= p < |slides| ==> slides[p] == p % n
    {
      ModAddDivisor(i, n);
      slides := slides + [i % n];
      i := i + 1;
    }
    var j := 0;
    while j < clones
      invariant 0 <= j <= clones && j <= n
      invariant |slides| == n + clones + j
      invariant forall p :: 0 <= p < |slides| ==> slides[p] == (p - j) % n
    {
      var cloneIndex := n - 1 - j;
      if cloneIndex < 0 {
        return CloneIndexOutOfRange(cloneIndex);
      }
      ModUnique(-1 - j, n, -1, cloneIndex);
      slides := Prepend(cloneIndex, slides, n, j);
      j := j + 1;
    }
    return Built(slides);
  }

  /** The clone loops with the prepend index wrapped around the originals, as the
      append loop already does: any positive number of originals yields the full
      layout. */
  method CloneSlides(n: int, clones: int) returns (slides: seq<int>)
    requires n >= 1 && clones >= 0
    ensures SlideLayout(slides, n, clones)
  {
    slides := Originals(n);
    var i := 0;
    while i < clones
      invariant 0 <= i <= clones
      invariant |slides| == n + i
      invariant forall p :: 0 <= p < |slides| ==> slides[p] == p % n
    {
      ModAddDivisor(i, n);
      slides := slides + [i % n];
      i := i + 1;
    }
    var j := 0;
    while j < clones
      invariant 0 <= j <= clones
      invariant |slides| == n + clones + j
      invariant forall p :: 0 <= p < |slides| ==> slides[p] == (p - j) % n
    {
      var cloneIndex := (n - 1 - j) % n;
      ModAddDivisor(-1 - j, n);
      slides := Prepend(cloneIndex, slides, n, j);
      j := j + 1;
    }
  }

  /** The original slides `0 .. n - 1` in document order. */
  function Originals(n: int): (s: seq<int>)
    requires n >= 1
    ensures |s| == n && forall p :: 0 <= p < n ==> s[p] == p % n
  {
    seq(n, k => k)
  }

  /** `insertBefore(clone, firstChild)` on a strip whose position `p` shows
      `(p - j) mod n`, when the clone shows `(-1 - j) mod n`. */
  function Prepend(clone: int, slides: seq<int>, n: int, j: int): (s: seq<int>)
    requires n >= 1
    requires clone == (-1 - j) % n
    requires forall p :: 0 <= p < |slides| ==> slides[p] == (p - j) % n
    ensures |s| == |slides| + 1
    ensures forall p :: 0 <= p < |s| ==> s[p] == (p - (j + 1)) % n
  {
    var s := [clone] + slides;
    assert forall p :: 1 <= p < |s| ==> s[p] == slides[p - 1];
    s
  }

  lemma ModAddDivisor(x: int, n: int)
    requires n >= 1
    ensures (x + n) % n == x % n
  {
    ModUnique(x + n, n, x / n + 1, x % n);
  }

  // ------------------------------------------------------------------
  // Real index and progress (lines 107-142)
  // ------------------------------------------------------------------

  /** The real index of `updateProgressBar`: JavaScript's remainder of the index's
      offset from the first original by `n`, shifted up by `n` when negative. */
  function RealIndex(currentIndex: real, clones: int, n: int): (r: real)
    requires n >= 1
    ensures 0.0 <= r < n as real
  {
    var realIndex := Rem(currentIndex - clones as real, n);
    if realIndex < 0.0 then realIndex + n as real else realIndex
  }

  /** The corrected JavaScript remainder is the floored modulo. */
  lemma RealIndexIsFlooredMod(currentIndex: real, clones: int, n: int)
    requires n >= 1
    ensures RealIndex(currentIndex, clones, n) == FlooredMod(currentIndex - clones as real, n)
  {
    NormalisedRemIsFlooredMod(currentIndex - clones as real, n);
  }

  /** For a whole index the real index is the Euclidean `(currentIndex - clones) mod n`. */
  lemma RealIndexOfWholeIndex(k: int, clones: int, n: int)
    requires n >= 1
    ensures RealIndex(k as real, clones, n) == ((k - clones) % n) as real
  {
    RealIndexIsFlooredMod(k as real, clones, n);
    FlooredModOfInteger(k - clones, n);
  }

  /** One full cycle of `n` slides either way shows the same real slide. */
  lemma RealIndexCycle(currentIndex: real, clones: int, n: int)
    requires n >= 1
    ensures RealIndex(currentIndex + n as real, clones, n) == RealIndex(currentIndex, clones, n)
    ensures RealIndex(currentIndex - n as real, clones, n) == RealIndex(currentIndex, clones, n)
  {
    var d := currentIndex - clones as real;
    RealIndexIsFlooredMod(currentIndex, clones, n);
    RealIndexIsFlooredMod(currentIndex + n as real, clones, n);
    RealIndexIsFlooredMod(currentIndex - n as real, clones, n);
    assert currentIndex + n as real - clones as real == d + n as real;
    assert currentIndex - n as real - clones as real == d - n as real;
    FlooredModShift(d, n);
  }

  /** Fraction of the way from the first original to the last. */
  function Progress(currentIndex: real, clones: int, n: int): (r: real)
    requires n >= 2
    ensures 0.0 <= r
    ensures IsInteger(currentIndex) ==> r <= 1.0
  {
    var realIndex := RealIndex(currentIndex, clones, n);
    WholeIndexBound(currentIndex, clones, n);
    DivideByPositive(realIndex, (n - 1) as real);
    realIndex / (n - 1) as real
  }

  lemma DivideByPositive(a: real, b: real)
    requires 0.0 <= a && b > 0.0
    ensures 0.0 <= a / b
    ensures a <= b ==> a / b <= 1.0
  {
  }

  /** A whole index shows a whole original, so at most the last one, `n - 1`. */
  lemma WholeIndexBound(currentIndex: real, clones: int, n: int)
    requires n >= 1
    ensures IsInteger(currentIndex) ==> RealIndex(currentIndex, clones, n) <= (n - 1) as real
  {
    if IsInteger(currentIndex) {
      RealIndexOfWholeIndex(currentIndex.Floor, clones, n);
    }
  }

  /** While dragging, the index is fractional and the progress can pass 1:
      with three originals and three clones, index `5.5` (half-way past the last
      original) gives progress `1.25`. */
  lemma DraggedProgressCanExceedOne()
    ensures Progress(5.5, 3, 3) == 1.25
  {
    assert (2.5).Floor == 2;
  }

  /** The progress bar's width in percent. */
  function BarWidthPercent(currentIndex: real, clones: int, n: int): (r: real)
    requires n >= 2
    ensures 0.0 <= r
    ensures IsInteger(currentIndex) ==> r <= 100.0
  {
    Progress(currentIndex, clones, n) * 100.0
  }

  /** The progress block's offset along a track of width `trackWidth`. */
  function BlockX(currentIndex: real, clones: int, n: int, trackWidth: real): (r: real)
    requires n >= 2
    ensures trackWidth >= ProgressBlockWidth ==> 0.0 <= r
    ensures trackWidth >= ProgressBlockWidth && IsInteger(currentIndex) ==> r <= trackWidth - ProgressBlockWidth
  {
    var progress := Progress(currentIndex, clones, n);
    var maxBlockX := trackWidth - ProgressBlockWidth;
    ScaleUnit(progress, maxBlockX);
    progress * maxBlockX
  }

  // ------------------------------------------------------------------
  // Wrap correction (lines 148-169)
  // ------------------------------------------------------------------

  /** The index range of the original slides, `[clones, clones + n)`. */
  predicate InRealRange(currentIndex: real, clones: int, n: int) {
    clones as real <= currentIndex < (clones + n) as real
  }

  /** The index `wrapSlide` moves to. */
  function Wrapped(currentIndex: real, clones: int, n: int): (r: real)
    ensures InRealRange(currentIndex, clones, n) ==> r == currentIndex
    ensures r == currentIndex || r == currentIndex - n as real || r == currentIndex + n as real
  {
    if currentIndex >= (clones + n) as real then
      clones as real + (currentIndex - (clones + n) as real)
    else if currentIndex < clones as real then
      (clones + n) as real - (clones as real - currentIndex)
    else
      currentIndex
  }

  /** The correction moves the index back or forward by exactly one cycle; an index
      among the originals is left alone. */
  lemma WrapShiftsOneCycle(currentIndex: real, clones: int, n: int)
    requires n >= 1
    ensures currentIndex >= (clones + n) as real ==> Wrapped(currentIndex, clones, n) == currentIndex - n as real
    ensures currentIndex < clones as real ==> Wrapped(currentIndex, clones, n) == currentIndex + n as real
    ensures InRealRange(currentIndex, clones, n) ==> Wrapped(currentIndex, clones, n) == currentIndex
  {
  }

  /** The correction snaps the strip by exactly `n` pitches, or not at all. */
  lemma WrapMovesStripOneCycle(currentIndex: real, clones: int, n: int, slideWidth: real, gap: real)
    requires n >= 1
    ensures var shift := Position(Wrapped(currentIndex, clones, n), slideWidth, gap) - Position(currentIndex, slideWidth, gap);
            shift == n as real * (slideWidth + gap) || shift == -(n as real) * (slideWidth + gap) || shift == 0.0
  {
    var w := Wrapped(currentIndex, clones, n);
    var p := slideWidth + gap;
    WrapShiftsOneCycle(currentIndex, clones, n);
    if currentIndex >= (clones + n) as real {
      PositionShift(currentIndex, -(n as real), slideWidth, gap);
      assert -(n as real) * p == -(n as real * p);
    } else if currentIndex < clones as real {
      PositionShift(currentIndex, n as real, slideWidth, gap);
      assert n as real * p == -(-(n as real) * p);
    }
  }

  /** The correction never changes which original slide is shown. */
  lemma WrapPreservesRealIndex(currentIndex: real, clones: int, n: int)
    requires n >= 1
    ensures RealIndex(Wrapped(currentIndex, clones, n), clones, n) == RealIndex(currentIndex, clones, n)
  {
    RealIndexCycle(currentIndex, clones, n);
  }

  /** The correction lands among the originals exactly when the overshoot is less
      than one cycle. */
  lemma WrapLandsInRangeIff(currentIndex: real, clones: int, n: int)
    requires n >= 1
    ensures InRealRange(Wrapped(currentIndex, clones, n), clones, n)
            <==> (clones - n) as real <= currentIndex < (clones + 2 * n) as real
  {
  }

  /** A whole index keeps its integrality through the correction. */
  lemma WrapKeepsWholeIndex(currentIndex: real, clones: int, n: int)
    requires IsInteger(currentIndex)
    ensures IsInteger(Wrapped(currentIndex, clones, n))
  {
    var k := currentIndex.Floor;
    assert currentIndex == k as real;
    var w := Wrapped(currentIndex, clones, n);
    assert w == (k - n) as real || w == (k + n) as real || w == k as real;
  }

  /** Position `p` of the strip shows the real slide the progress bar reports for
      index `p`. */
  lemma SlideShowsRealIndex(slides: seq<int>, n: int, clones: int, p: int)
    requires n >= 1 && SlideLayout(slides, n, clones) && 0 <= p < |slides|
    ensures slides[p] as real == RealIndex(p as real, clones, n)
  {
    RealIndexOfWholeIndex(p, clones, n);
  }

  /** The wrap is seamless: from any slide of the strip it jumps to a slide of the
      strip that shows the same original. */
  lemma WrapIsSeamless(slides: seq<int>, n: int, clones: int, p: int)
    requires n >= 1 && clones >= 0 && SlideLayout(slides, n, clones) && 0 <= p < |slides|
    ensures var w := Wrapped(p as real, clones, n);
            IsInteger(w) && 0 <= w.Floor < |slides| && slides[w.Floor] == slides[p]
  {
    var w := Wrapped(p as real, clones, n);
    WrapShiftsOneCycle(p as real, clones, n);
    if p >= clones + n {
      assert w == (p - n) as real;
      assert w.Floor == p - n;
      ModAddDivisor(p - n - clones, n);
    } else if p < clones {
      assert w == (p + n) as real;
      assert w.Floor == p + n;
      ModAddDivisor(p - clones, n);
    } else {
      assert w.Floor == p;
    }
  }

  // ------------------------------------------------------------------
  // One carousel instance (`state` and `config` of initCarousel)
  // ------------------------------------------------------------------

  class Carousel {
    /** `config.numSlides`: the number of original slides. */
    const numSlides: int
    /** `config.clonesToCreate` */
    const clonesToCreate: int
    /** `allSlides`: for each position of the strip, the original it shows. */
    const slides: seq<int>
    /** `config.totalWithClones` */
    const totalWithClones: int
    /** `config.gap` */
    var gap: real
    /** `state.slideWidth` */
    var slideWidth: real
    /** `config.slidesPerView` */
    var slidesPerView: int
    /** `state.currentIndex`: whole between gestures, fractional while dragging. */
    var currentIndex: real
    /** `state.isWrapping`: set by a correction until its cooldown elapses. */
    var isWrapping: bool
    /** The tween on the strip (`state.slideAnimation`, or the release tween). */
    var tween: Animation
    /** The strip's horizontal offset. */
    var x: real
    /** The drag's `this.startIndex` */
    var startIndex: real
    /** The drag's `this.startX` */
    var startX: real

    ghost predicate Valid()
      reads this
    {
      && numSlides >= 1
      && clonesToCreate >= MinClones
      && totalWithClones == |slides|
      && SlideLayout(slides, numSlides, clonesToCreate)
      && slideWidth + gap > 0.0
    }

    /** The state `initCarousel` leaves after its first `handleResize`: the index on
        the first original, no tween, no correction pending. */
    constructor (n: int, clones: int, allSlides: seq<int>, containerWidth: real, gapValue: real, slideWidthValue: real)
      requires n >= 1 && slideWidthValue + gapValue > 0.0
      requires clones == ClonesToCreate(SlidesPerView(containerWidth, slideWidthValue + gapValue))
      requires SlideLayout(allSlides, n, clones)
      ensures Valid()
      ensures numSlides == n && clonesToCreate == clones && slides == allSlides
      ensures gap == gapValue && slideWidth == slideWidthValue
      ensures slidesPerView == SlidesPerView(containerWidth, slideWidthValue + gapValue)
      ensures currentIndex == clones as real && !isWrapping && tween == Stopped
      ensures x == Position(currentIndex, slideWidth, gap)
    {
      numSlides := n;
      clonesToCreate := clones;
      slides := allSlides;
      totalWithClones := |allSlides|;
      gap := gapValue;
      slideWidth := slideWidthValue;
      slidesPerView := SlidesPerView(containerWidth, slideWidthValue + gapValue);
      currentIndex := clones as real;
      isWrapping := false;
      tween := Stopped;
      x := Position(clones as real, slideWidthValue, gapValue);
      startIndex := 0.0;
      startX := 0.0;
    }

    /** The original slide on show. */
    function RealSlide(): (r: real)
      reads this
      requires Valid()
      ensures 0.0 <= r < numSlides as real
    {
      RealIndex(currentIndex, clonesToCreate, numSlides)
    }

    /** `wrapSlide`: unless a correction is cooling down, jump back into the
        originals by one cycle and snap the strip there without a tween. */
    method WrapSlide()
      requires Valid()
      modifies this`currentIndex, this`isWrapping, this`x
      ensures Valid()
      ensures old(isWrapping) ==> currentIndex == old(currentIndex) && isWrapping && x == old(x)
      ensures !old(isWrapping) ==>
        && currentIndex == Wrapped(old(currentIndex), clonesToCreate, numSlides)
        && isWrapping == !InRealRange(old(currentIndex), clonesToCreate, numSlides)
        && x == (if isWrapping then Position(currentIndex, slideWidth, gap) else old(x))
      ensures RealSlide() == old(RealSlide())
    {
      WrapPreservesRealIndex(currentIndex, clonesToCreate, numSlides);
      if isWrapping {
        return;
      }
      if currentIndex >= (clonesToCreate + numSlides) as real {
        isWrapping := true;
        var offset := currentIndex - (clonesToCreate + numSlides) as real;
        currentIndex := clonesToCreate as real + offset;
        x := Position(currentIndex, slideWidth, gap);
      } else if currentIndex < clonesToCreate as real {
        isWrapping := true;
        var offset := clonesToCreate as real - currentIndex;
        currentIndex := (clonesToCreate + numSlides) as real - offset;
        x := Position(currentIndex, slideWidth, gap);
      }
    }

    /** The 50 ms `setTimeout` after a correction fires. */
    method CooldownElapsed()
      requires Valid()
      requires isWrapping
      modifies this`isWrapping
      ensures Valid()
      ensures !isWrapping
    {
      isWrapping := false;
    }

    /** `animateSlides(direction)`: ignored during a cooldown; otherwise step the
        index and replace any running tween by one towards the new index. */
    method AnimateSlides(direction: int)
      requires Valid()
      modifies this`currentIndex, this`tween
      ensures Valid()
      ensures old(isWrapping) ==> currentIndex == old(currentIndex) && tween == old(tween)
      ensures !old(isWrapping) ==>
        && currentIndex == old(currentIndex) + direction as real
        && tween == Running(Position(currentIndex, slideWidth, gap))
    {
      if isWrapping {
        return;
      }
      var newIndex := currentIndex + direction as real;
      currentIndex := newIndex;
      tween := Running(Position(newIndex, slideWidth, gap));
    }

    /** The running tween reaches its end and calls `wrapSlide`. */
    method TweenComplete()
      requires Valid() && tween.Running?
      modifies this`currentIndex, this`isWrapping, this`x, this`tween
      ensures Valid() && tween == Stopped
      ensures old(isWrapping) ==> currentIndex == old(currentIndex) && isWrapping && x == old(tween).targetX
      ensures !old(isWrapping) ==>
        && currentIndex == Wrapped(old(currentIndex), clonesToCreate, numSlides)
        && isWrapping == !InRealRange(old(currentIndex), clonesToCreate, numSlides)
        && x == (if isWrapping then Position(currentIndex, slideWidth, gap) else old(tween).targetX)
      ensures RealSlide() == old(RealSlide())
    {
      x := tween.targetX;
      tween := Stopped;
      WrapSlide();
    }

    /** The drag's `onPress`: stop the strip and remember where the gesture began. */
    method OnPress(pointerX: real)
      requires Valid()
      modifies this`tween, this`startIndex, this`startX
      ensures Valid()
      ensures tween == Stopped && startIndex == currentIndex && startX == pointerX
    {
      tween := Stopped;
      startIndex := currentIndex;
      startX := pointerX;
    }

    /** The drag's `onDrag`: the strip follows the pointer one to one and the index
        becomes the fractional slide count it has travelled. */
    method OnDrag(pointerX: real)
      requires Valid()
      modifies this`x, this`currentIndex
      ensures Valid()
      ensures x == Position(startIndex, slideWidth, gap) + (pointerX - startX)
      ensures currentIndex == startIndex + SlidesTravelled(pointerX - startX, slideWidth + gap)
      ensures x == Position(currentIndex, slideWidth, gap)
    {
      var dragDistance := pointerX - startX;
      var newPosition := Position(startIndex, slideWidth, gap) + dragDistance;
      x := newPosition;
      var slidesMoved := SlidesTravelled(dragDistance, slideWidth + gap);
      currentIndex := startIndex + slidesMoved;
      DragTracksIndex(startIndex, dragDistance, slideWidth, gap);
    }

    /** The drag's `onRelease`: round to the nearest slide and tween there. */
    method OnRelease(pointerX: real)
      requires Valid()
      modifies this`currentIndex, this`tween
      ensures Valid()
      ensures IsInteger(currentIndex)
      ensures var travelled := startIndex + SlidesTravelled(pointerX - startX, slideWidth + gap);
              currentIndex - 0.5 <= travelled < currentIndex + 0.5
      ensures tween == Running(Position(currentIndex, slideWidth, gap))
    {
      var dragDistance := pointerX - startX;
      var slidesMoved := SlidesTravelled(dragDistance, slideWidth + gap);
      var newIndex := Round(startIndex + slidesMoved);
      currentIndex := newIndex as real;
      tween := Running(Position(newIndex as real, slideWidth, gap));
    }

    /** `handleResize`: re-measure, re-derive the slides per view and snap the strip
        to the unchanged index. */
    method HandleResize(gapValue: real, slideWidthValue: real, containerWidth: real)
      requires Valid() && slideWidthValue + gapValue > 0.0
      modifies this`gap, this`slideWidth, this`slidesPerView, this`x
      ensures Valid()
      ensures gap == gapValue && slideWidth == slideWidthValue
      ensures slidesPerView == SlidesPerView(containerWidth, slideWidthValue + gapValue)
      ensures x == Position(currentIndex, slideWidth, gap)
    {
      gap := gapValue;
      slideWidth := slideWidthValue;
      slidesPerView := SlidesPerView(containerWidth, slideWidth + gap);
      x := Position(currentIndex, slideWidth, gap);
    }
  }

  /** The drag's `slidesMoved`: a drag of `dragDistance` pixels in slide pitches,
      positive when the pointer moves left. */
  function SlidesTravelled(dragDistance: real, pitch: real): (r: real)
    requires pitch > 0.0
    ensures r * pitch == -dragDistance
  {
    -dragDistance / pitch
  }

  /** Dragging by `d` pixels is the same offset as moving the index by the
      fractional number of slides travelled. */
  lemma DragTracksIndex(startIndex: real, dragDistance: real, slideWidth: real, gap: real)
    requires slideWidth + gap > 0.0
    ensures Position(startIndex + SlidesTravelled(dragDistance, slideWidth + gap), slideWidth, gap)
            == Position(startIndex, slideWidth, gap) + dragDistance
  {
    var p := slideWidth + gap;
    var m := SlidesTravelled(dragDistance, p);
    PositionShift(startIndex, m, slideWidth, gap);
    assert m * p == -dragDistance;
  }

  /** `initCarousel`: give up when the strip or the slides are missing; otherwise
      measure, clone and start on the first original. */
  method InitCarousel(hasSlidesInner: bool, numOriginalSlides: int, containerWidth: real, gapValue: real, slideWidthValue: real)
    returns (r: Option<Carousel>)
    requires numOriginalSlides >= 0 && slideWidthValue + gapValue > 0.0
    ensures r.Some? <==> hasSlidesInner && numOriginalSlides >= 1
    ensures r.Some? ==>
      && fresh(r.value) && r.value.Valid()
      && r.value.numSlides == numOriginalSlides
      && r.value.clonesToCreate == ClonesToCreate(SlidesPerView(containerWidth, slideWidthValue + gapValue))
      && |r.value.slides| == numOriginalSlides + 2 * r.value.clonesToCreate
      && r.value.currentIndex == r.value.clonesToCreate as real
      && r.value.RealSlide() == 0.0
  {
    if !hasSlidesInner || numOriginalSlides == 0 {
      return None;
    }
    var slidesPerView := SlidesPerView(containerWidth, slideWidthValue + gapValue);
    var clones := ClonesToCreate(slidesPerView);
    var allSlides := CloneSlides(numOriginalSlides, clones);
    var c := new Carousel(numOriginalSlides, clones, allSlides, containerWidth, gapValue, slideWidthValue);
    RealIndexOfWholeIndex(clones, clones, numOriginalSlides);
    return Some(c);
  }

  /** A click on the next (`direction == 1`) or previous (`direction == -1`) button
      from a settled index among the originals, followed by the end of its tween:
      the index is back among the originals and the next or previous original is on
      show. */
  method ClickAndSettle(c: Carousel, direction: int)
    requires c.Valid() && !c.isWrapping && (direction == 1 || direction == -1)
    requires IsInteger(c.currentIndex) && InRealRange(c.currentIndex, c.clonesToCreate, c.numSlides)
    modifies c
    ensures c.Valid() && IsInteger(c.currentIndex)
    ensures InRealRange(c.currentIndex, c.clonesToCreate, c.numSlides)
    ensures c.RealSlide() == FlooredMod(old(c.RealSlide()) + direction as real, c.numSlides)
  {
    ghost var k := c.currentIndex.Floor;
    ClickLandsOnNeighbour(k, c.clonesToCreate, c.numSlides, direction);
    c.AnimateSlides(direction);
    c.TweenComplete();
  }

  /** From a whole index `k` among the originals, one step and its wrap correction
      land on a whole index among the originals that shows the neighbouring original. */
  lemma ClickLandsOnNeighbour(k: int, clones: int, n: int, d: int)
    requires n >= 1 && clones <= k < clones + n && (d == 1 || d == -1)
    ensures var w := Wrapped(k as real + d as real, clones, n);
            && IsInteger(w) && InRealRange(w, clones, n)
            && RealIndex(w, clones, n) == FlooredMod(RealIndex(k as real, clones, n) + d as real, n)
  {
    var x := k as real + d as real;
    assert x == (k + d) as real;
    RealIndexOfWholeIndex(k, clones, n);
    RealIndexOfWholeIndex(k + d, clones, n);
    WrapLandsInRangeIff(x, clones, n);
    WrapKeepsWholeIndex(x, clones, n);
    WrapPreservesRealIndex(x, clones, n);
    StepRealIndex(k, clones, n, d);
  }

  /** Stepping a whole index by one steps its real index by one modulo `n`. */
  lemma StepRealIndex(k: int, clones: int, n: int, d: int)
    requires n >= 1
    ensures ((k + d - clones) % n) as real == FlooredMod(((k - clones) % n) as real + d as real, n)
  {
    var r := (k - clones) % n;
    assert r as real + d as real == (r + d) as real;
    FlooredModOfInteger(r + d, n);
    ModUnique(k + d - clones, n, (k - clones) / n + (r + d) / n, (r + d) % n);
  }
}
