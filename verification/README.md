# Slider state machines of gsap-codes

This project models three GSAP-based slider widgets. Each keeps a small numeric state record that its event callbacks update. The DOM, GSAP and browser plumbing around that state is not modelled.

- **Infinite carousel** (`Carousel`, gsap-slider.js).
  - The original slides sit between clones on both sides. The state holds a fractional index into that strip.
  - Buttons step the index and tween the strip there. A drag moves the strip one to one with the pointer. A release rounds the index to the nearest slide.
  - When a tween ends outside the originals, a wrap correction snaps back by one cycle. A short cooldown flag guards against re-entry.
  - The progress bar and block show which original is on screen.
- **Momentum panel with a progress handle** (`MomentumPanel`, drag-with-custom-progress.js).
  - A per-frame ticker damps the velocity and advances the content offset.
  - If the offset leaves `[minX, 0]`, the ticker pulls it a fifth of the way back and zeroes the velocity.
  - The handle's offset mirrors the scroll progress. Dragging the handle scrolls the content.
- **Native-scroll momentum** (`NativeScroll`, drag-with-native-scroll-bar.js).
  - The same damped step runs on a scroll target, but only while an `isScrolling` flag is set.
  - The flag drops once the speed falls below 0.1 pixels per frame.

`JsMath` gives the JavaScript numeric operations these need, over unbounded `real` and `int`:
- `Math.ceil`, `Math.round`, `Math.abs`, `Math.min`, `Math.max`;
- the truncating `%` on a real dividend and a whole divisor;
- the floored modulo it is compared against.

Each widget instance becomes a class whose fields are the source's `state`/`config` entries. The ticker frames and tween completions become explicit event methods. The numeric core of each event is a function, and the lemmas about those functions carry the properties.

## Model

| member | source | states |
|---|---|---|
| JsMath.Ceil | gsap-slider.js:60 | `Math.ceil` returns the least integer at or above its argument |
| JsMath.Round | gsap-slider.js:205 | `Math.round` returns the integer within half a unit, rounding halves up |
| JsMath.Rem | gsap-slider.js:109 | JavaScript's `%` by a whole `n` has the sign of the dividend and magnitude below `n`, and differs from the dividend by a whole multiple of `n` |
| JsMath.Min | drag-with-custom-progress.js:73 | `Math.min` is at most both arguments and equal to one of them |
| JsMath.Max | drag-with-custom-progress.js:53 | `Math.max` is at least both arguments and equal to one of them |
| JsMath.Abs | drag-with-native-scroll-bar.js:80 | `Math.abs` is non-negative and equal to the argument or its negation |
| JsMath.NormalisedRemIsFlooredMod | gsap-slider.js:109-110 | adding `n` to a negative remainder gives the floored (mathematical) modulo |
| JsMath.Clamp | drag-with-custom-progress.js:53 | `max(lo, min(hi, x))` lies in `[lo, hi]`, is `x` inside the range and the nearer end outside it |
| Carousel.SlidesPerView | gsap-slider.js:58-60 | the slides per view is the container width in slide pitches, rounded up |
| Carousel.ClonesToCreate | gsap-slider.js:63 | the clone count is at least 3, greater than the slides per view, and is one of those two bounds |
| Carousel.CloneSlidesAsWritten | gsap-slider.js:65-78 | the clone loops as written succeed exactly when there are no more clones than originals; then the strip has `n + 2*clones` slides and position `p` shows original `(p - clones) mod n`; otherwise the prepend loop reaches index -1 |
| Carousel.CloneSlides | gsap-slider.js:65-78 | with the prepend index wrapped, every `n >= 1` gives `n + 2*clones` slides, position `p` showing original `(p - clones) mod n` |
| Carousel.Position | gsap-slider.js:144-146 | the strip offset for `index` cancels that slide's own distance into the strip, `index` pitches, so the slide sits at the container's left edge |
| Carousel.PositionShift | gsap-slider.js:144-146 | moving the index by `k` slides moves the strip by `k` pitches the other way |
| Carousel.RealIndex | gsap-slider.js:109-110 | the normalised real index lies in `[0, n)` |
| Carousel.RealIndexIsFlooredMod | gsap-slider.js:109-110 | the normalised real index is the floored modulo of the index's offset from the first original |
| Carousel.RealIndexOfWholeIndex | gsap-slider.js:109-110 | for a whole index it equals the Euclidean `(currentIndex - clones) mod n` |
| Carousel.RealIndexCycle | gsap-slider.js:109-110 | indices one cycle of `n` apart show the same original |
| Carousel.Wrapped | gsap-slider.js:148-166 | the corrected index is the index itself, one cycle less or one cycle more, and an index among the originals is kept |
| Carousel.SlideShowsRealIndex | gsap-slider.js:65-78 | position `p` of the strip shows exactly the original the progress bar reports for index `p` |
| Carousel.Progress | gsap-slider.js:127 | progress is non-negative, and at most 1 for a whole index |
| Carousel.DraggedProgressCanExceedOne | gsap-slider.js:192-200 | a fractional drag index can give progress above 1 (three originals and three clones, index 5.5 gives 1.25) |
| Carousel.BarWidthPercent | gsap-slider.js:114 | the bar width is non-negative, and at most 100% for a whole index |
| Carousel.BlockX | gsap-slider.js:127-132 | on a track at least 50 px wide the block offset is non-negative, and at most `trackWidth - 50` for a whole index |
| Carousel.WrapShiftsOneCycle | gsap-slider.js:148-166 | the correction subtracts `n` at or past the end, adds `n` before the start, and leaves an index among the originals alone |
| Carousel.WrapMovesStripOneCycle | gsap-slider.js:155-163 | the snap moves the strip by exactly `n` pitches either way, or not at all |
| Carousel.WrapPreservesRealIndex | gsap-slider.js:148-169 | the correction never changes which original is shown |
| Carousel.WrapLandsInRangeIff | gsap-slider.js:148-166 | the corrected index is among the originals if and only if the overshoot was less than one cycle either way |
| Carousel.WrapKeepsWholeIndex | gsap-slider.js:148-166 | a whole index stays whole through the correction |
| Carousel.WrapIsSeamless | gsap-slider.js:148-166 | from any slide of the strip the correction jumps to a slide of the strip showing the same original |
| Carousel.SlidesTravelled | gsap-slider.js:198 | the slides moved, times the slide pitch, is the drag distance the other way |
| Carousel.DragTracksIndex | gsap-slider.js:192-200 | the dragged strip offset is exactly the offset of the fractional index the drag computes |
| Carousel.Carousel.constructor | gsap-slider.js:85-102 | after initialisation the index is on the first original, no tween runs, no correction is pending, and the strip sits at that index's position |
| Carousel.Carousel.RealSlide | gsap-slider.js:109-110 | the original on show lies in `[0, numSlides)` |
| Carousel.Carousel.WrapSlide | gsap-slider.js:148-169 | during a cooldown nothing changes; otherwise the index becomes its wrap correction, the flag is set exactly when a correction happened, and the strip snaps only then; the original shown is kept |
| Carousel.Carousel.CooldownElapsed | gsap-slider.js:157 | the cooldown timer clears the re-entry flag |
| Carousel.Carousel.AnimateSlides | gsap-slider.js:224-245 | during a cooldown nothing changes; otherwise the index moves by exactly `direction` and a tween towards that index replaces any running one; no wrap happens here |
| Carousel.Carousel.TweenComplete | gsap-slider.js:214-216 | the strip reaches the tween's target and the wrap correction runs as in `WrapSlide` |
| Carousel.Carousel.OnPress | gsap-slider.js:187-191 | a press stops the tween and records the start index and pointer |
| Carousel.Carousel.OnDrag | gsap-slider.js:192-201 | the strip follows the pointer one to one, the index becomes the start index plus the slides travelled, and the strip offset is that index's position |
| Carousel.Carousel.OnRelease | gsap-slider.js:202-220 | the index becomes the whole number nearest the dragged index and a tween to it starts |
| Carousel.Carousel.HandleResize | gsap-slider.js:248-260 | resize sets the gap, slide width and slides per view and snaps the strip to the unchanged index; clones, originals and index are untouched |
| Carousel.InitCarousel | gsap-slider.js:43-78 | no carousel without the strip element or with no slides; otherwise a valid carousel with `n + 2*clones` slides, starting on original 0; the strip is built by the corrected prepend loop of the first finding, so fewer originals than clones still give a carousel |
| Carousel.ClickAndSettle | gsap-slider.js:267-277 | a button click from a settled index among the originals, once its tween completes, leaves a whole index among the originals showing the next or previous original, cyclically |
| Carousel.ClickLandsOnNeighbour | gsap-slider.js:224-245 | from a whole index among the originals, a one-slide step followed by its wrap correction lands on a whole index among the originals showing the next or previous original, cyclically |
| MomentumPanel.MinX | drag-with-custom-progress.js:73 | the lower bound is at most 0 and at most the negative overflow, and equals one of them |
| MomentumPanel.TickStep | drag-with-custom-progress.js:67-84 | a frame damps the velocity by 0.85 or zeroes it, and a frame that keeps a non-zero velocity is plain motion by that velocity that ends within `[minX, 0]` |
| MomentumPanel.TickNeverSpeedsUp | drag-with-custom-progress.js:68-84 | a frame sets the velocity to `0.85 v` or 0, so its magnitude never grows |
| MomentumPanel.TickInsideBounds | drag-with-custom-progress.js:68-84 | when the advanced offset is within `[minX, 0]`, the frame is exactly `x + 0.85 v` with velocity `0.85 v` |
| MomentumPanel.TickPullsBack | drag-with-custom-progress.js:76-84 | past either bound the velocity becomes 0 and the distance to that bound shrinks to 80% without crossing it |
| MomentumPanel.TicksNeverSpeedUp | drag-with-custom-progress.js:67-88 | over any number of frames the speed never exceeds the starting speed |
| MomentumPanel.RestingOvershootDecays | drag-with-custom-progress.js:76-79 | content at rest past 0 is `0.8^k` of its overshoot away after `k` frames |
| MomentumPanel.RestingUndershootDecays | drag-with-custom-progress.js:81-84 | content at rest below `minX` is `0.8^k` of its undershoot away after `k` frames |
| MomentumPanel.RestIsFixedPoint | drag-with-custom-progress.js:67-84 | content at rest within the bounds stays put |
| MomentumPanel.ScrollProgress | drag-with-custom-progress.js:52-53 | progress is clamped into `[0, 1]` |
| MomentumPanel.HandleOffset | drag-with-custom-progress.js:45-61 | the handle offset is 0 when the content does not overflow, and lies in `[0, maxBlockX]` when the track has room |
| MomentumPanel.OffsetForHandle | drag-with-custom-progress.js:146-157 | handle dragging does nothing exactly when the track has no room; otherwise the content offset lies in `[-maxScroll, 0]` |
| MomentumPanel.HandleRoundTrip | drag-with-custom-progress.js:146-157 | dragging the handle and laying it out again gives back the handle's clamped progress, and the handle itself when it lies on the track |
| MomentumPanel.ContentRoundTrip | drag-with-custom-progress.js:45-61 | laying out the handle for an in-range offset and dragging the handle there restores the offset |
| MomentumPanel.Panel.constructor | drag-with-custom-progress.js:30-35 | the panel starts at rest at offset 0 with the handle at 0 |
| MomentumPanel.Panel.UpdateProgressBlock | drag-with-custom-progress.js:40-62 | with a track, the handle moves to the handle offset of the current content offset; without a track nothing changes |
| MomentumPanel.Panel.Tick | drag-with-custom-progress.js:67-88 | the motion state becomes one ticker frame of the old state and the handle follows |
| MomentumPanel.Panel.OnContentPress | drag-with-custom-progress.js:111-113 | a press zeroes the velocity |
| MomentumPanel.Panel.OnContentDrag | drag-with-custom-progress.js:114-119 | the velocity becomes this event's displacement and the offset the dragged one |
| MomentumPanel.Panel.OnContentDragEnd | drag-with-custom-progress.js:120-122 | release multiplies the velocity by 1.2 |
| MomentumPanel.Panel.OnBlockPress | drag-with-custom-progress.js:140-142 | a handle press zeroes the velocity |
| MomentumPanel.Panel.OnBlockDrag | drag-with-custom-progress.js:143-159 | the content jumps to the offset for the handle, or stays when the track has no room |
| MomentumPanel.Panel.OnBlockDragEnd | drag-with-custom-progress.js:160-162 | a handle release zeroes the velocity |
| NativeScroll.TickStep | drag-with-native-scroll-bar.js:59-83 | a frame keeps, damps by 0.85 or zeroes the velocity; playback stays on only at a speed of at least 0.1; a playing frame that keeps a non-zero velocity advances the target by exactly that velocity |
| NativeScroll.IdleTickChangesNothing | drag-with-native-scroll-bar.js:60 | a frame without playback changes nothing |
| NativeScroll.TickDampsAndGates | drag-with-native-scroll-bar.js:62-82 | a playing frame sets the velocity to `0.85 v` or 0, never grows the speed, and keeps playback on exactly while the speed is at least 0.1 |
| NativeScroll.TickInsideRange | drag-with-native-scroll-bar.js:62-75 | within `[0, maxScroll]` the target advances by exactly the damped velocity |
| NativeScroll.TickCorrectionEndsPlayback | drag-with-native-scroll-bar.js:66-82 | outside the range the zeroed velocity ends playback, whatever the range; on a non-empty range the target also moves a fifth of the way back without crossing the bound |
| NativeScroll.RunSpeedDecays | drag-with-native-scroll-bar.js:59-83 | while playback lasts, the speed after `k` frames is at most the release speed damped `k` times |
| NativeScroll.PlaybackEnds | drag-with-native-scroll-bar.js:79-82 | playback is off after `k >= 1` frames once `3k + 17` exceeds 170 times the release speed |
| NativeScroll.DragVelocity | drag-with-native-scroll-bar.js:106-111 | the corrected drag velocity is the displacement from the previous to the new scroll |
| NativeScroll.DragVelocityAsWritten | drag-with-native-scroll-bar.js:108 | as written, the drag velocity is the displacement from the new scroll back to the previous one, the reverse of the drag |
| NativeScroll.FlingReversesAsWritten | drag-with-native-scroll-bar.js:106-115 | as written, a last drag from 100 to 110 is followed, after release, by a frame at 99.8 |
| NativeScroll.FlingOpposesDragAsWritten | drag-with-native-scroll-bar.js:106-115 | as written, the first frame after release always moves against the drag while in range |
| NativeScroll.FlingFollowsDrag | drag-with-native-scroll-bar.js:106-115 | with the corrected velocity the first frame after release carries on in the drag's direction |
| NativeScroll.NativeScrollSlider.constructor | drag-with-native-scroll-bar.js:50-56 | the slider starts at rest, without playback, with the target at the container's scroll |
| NativeScroll.NativeScrollSlider.Tick | drag-with-native-scroll-bar.js:59-83 | the playback state becomes one ticker frame of the old state, and the container scroll follows the target while playing |
| NativeScroll.NativeScrollSlider.OnPress | drag-with-native-scroll-bar.js:100-105 | a press zeroes the velocity, stops playback and anchors start and target at the container scroll |
| NativeScroll.NativeScrollSlider.OnNativeScroll | drag-with-native-scroll-bar.js:102 | the user's native scrolling moves the container's `scrollLeft`, which the press reads, and changes nothing in the slider's state |
| NativeScroll.NativeScrollSlider.OnDragAsWritten | drag-with-native-scroll-bar.js:106-111 | as written, the velocity becomes the previous scroll minus the new one, and target and start become the new scroll |
| NativeScroll.NativeScrollSlider.OnDrag | drag-with-native-scroll-bar.js:106-111 | the velocity becomes the scroll displacement, and target and start become the new scroll |
| NativeScroll.NativeScrollSlider.OnDragEnd | drag-with-native-scroll-bar.js:112-115 | release multiplies the velocity by 1.2 and starts playback |
| NativeScroll.NativeScrollSlider.HandleResize | drag-with-native-scroll-bar.js:124-130 | resize resets the closure's start scroll to 0 and resynchronises the target with the container, leaving velocity and playback alone |
| NativeScroll.PressAfterNativeScroll | drag-with-native-scroll-bar.js:99-104 | a press after native scrolling stops playback and anchors start and target at the new scroll |
| NativeScroll.ResizeAfterNativeScroll | drag-with-native-scroll-bar.js:123-130 | a resize after native scrolling resynchronises the target with the new scroll, resets the start scroll to 0 and keeps velocity and playback |

## Left out

- Carousel.InitCarousel: builds the strip with the corrected prepend loop (`Carousel.CloneSlides`), so for `1 <= n < clones` it returns a carousel where the code as written throws at gsap-slider.js:75 and builds none; that failure is stated by `Carousel.CloneSlidesAsWritten`.
- DOM and GSAP work is not modelled:
  - element queries, `cloneNode`/`insertBefore`, class names, style and transition writes;
  - tween easing and duration, `overwrite`/`kill`, Draggable's bounds and edge resistance;
  - ticker registration, the unload cleanup and the `Webflow.push` bootstrap.
  The slide strip is a `seq<int>` of original indices. A tween is its target offset, and its completion is an explicit `TweenComplete` event. A killed tween never completes.
- Intermediate tween positions are not modelled: the carousel's `x` changes only when a drag sets it, a snap sets it or a tween completes.
- The 50 ms cooldown timer is the explicit event `Carousel.Carousel.CooldownElapsed`.
- Browser measurements are method inputs: widths, `scrollWidth`, the container's `scrollLeft` (through the native-scroll slider's constructor, its drag methods and `NativeScroll.NativeScrollSlider.OnNativeScroll`), and the CSS gap with its fallback to 0. The browser's own clamping of `scrollLeft` is not modelled.
- Floating point is not modelled. Numbers are unbounded reals and integers, so IEEE rounding, NaN and Infinity are absent. Two consequences:
  - A zero slide pitch (Infinity slides per view) is excluded by `slideWidth + gap > 0`.
  - With a single original slide the code as written never gets this far: the prepend loop throws first (the first finding). With the corrected loop the carousel is built, and the progress of gsap-slider.js:114 and :127 then divides by zero (NaN). `Carousel.Progress`, `Carousel.BarWidthPercent` and `Carousel.BlockX` therefore require `n >= 2`.
- The slide width is measured from the first original at initialisation and from the first strip slide on resize. The model takes one width, so slides of different widths are not modelled.
- The carousel's `slideDuration` is the tween duration (gsap-slider.js:211 and :236); tween timing is not modelled, so neither is it. The unused `totalWidth`, `progressPerItem` and `threshold` entries carry no behaviour and are not modelled. Neither is the dragging flag of `updateProgressBar`, which only picks a CSS transition.
- The progress bar and block of the carousel are functions of the index (`Carousel.BarWidthPercent`, `Carousel.BlockX`), not stored fields. Whether they are drawn depends on optional elements that are not modelled.
- Resize of the momentum panel recreates its Draggables and calls `updateProgressBlock`. It changes no state beyond what `MomentumPanel.Panel.UpdateProgressBlock` models.
- Native scrolling by the user outside a drag (scroll bar, wheel, touch) is the event `NativeScroll.NativeScrollSlider.OnNativeScroll`, which changes `scrollLeft` only. Which scroll values the browser produces is not modelled.
- The native-scroll range is `scrollWidth - offsetWidth` (drag-with-native-scroll-bar.js:66). With borders that can be negative when the content fits; the model takes it as an input of any sign.

## Findings

| source | as written | input that shows it | evidently intended | confidence | as-written member | corrected member |
|---|---|---|---|---|---|---|
| gsap-slider.js:73-75 | the prepend loop reads original `n - 1 - j` without wrapping, although the append loop wraps with `i % n` | 2 original slides and 3 clones (any `clones > n`): the third prepend reads `originalSlides[-1]`, which is `undefined`, and `cloneNode` throws | the prepend index wraps around the originals like the append index, so a few wide slides still get a full strip | not executed | Carousel.CloneSlidesAsWritten | Carousel.CloneSlides |
| drag-with-native-scroll-bar.js:108 | the drag velocity is the previous scroll minus the new scroll, the opposite sign to the scroll's movement, while playback adds it to the scroll | last drag event from 100 to 110 in a 1000 px range: the first frame after release moves the scroll back to 99.8 | the velocity is the new scroll minus the previous one, as in the momentum panel (drag-with-custom-progress.js:116), so the fling carries on in the drag's direction | not executed | NativeScroll.FlingReversesAsWritten | NativeScroll.FlingFollowsDrag |
