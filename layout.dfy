/**
 * The two numeric rules of the results view: the height the scroll view
 * is eased to, and the frame counter of the now-playing overlay animation.
 */
module Layout {

  /** Height given to each result row, the cap on the view, the loading height. */
  const ROW_HEIGHT: nat := 60
  const MAX_RESULTS_HEIGHT: nat := 250
  const LOADING_HEIGHT: nat := 44

  /** `Math.min(n * 60, 250)`: the smaller of the rows' height and the cap. */
  function ResultsHeight(n: nat): (h: nat)
    ensures h <= MAX_RESULTS_HEIGHT && h <= n * ROW_HEIGHT
    ensures h == MAX_RESULTS_HEIGHT || h == n * ROW_HEIGHT
  {
    if n * ROW_HEIGHT < MAX_RESULTS_HEIGHT then n * ROW_HEIGHT else MAX_RESULTS_HEIGHT
  }

  /** More rows never shrink the view. */
  lemma ResultsHeightMonotonic(m: nat, n: nat)
    requires m <= n
    ensures ResultsHeight(m) <= ResultsHeight(n)
  {
    assert m * ROW_HEIGHT <= n * ROW_HEIGHT;
  }

  /** The number of frames in the soundbar animation. */
  const FRAME_COUNT: nat := 30

  /** `(idx + 1) % FRAME_COUNT`: the next animation frame. */
  function NextFrame(idx: nat): (r: nat)
    ensures r < FRAME_COUNT
    ensures idx + 1 < FRAME_COUNT ==> r == idx + 1
    ensures idx + 1 == FRAME_COUNT ==> r == 0
  {
    (idx + 1) % FRAME_COUNT
  }

  /** The frame shown after `k` ticks of the animation from frame `idx`. */
  function AdvanceFrames(idx: nat, k: nat): nat {
    if k == 0 then idx else NextFrame(AdvanceFrames(idx, k - 1))
  }

  /** After `k` ticks the animation is at frame `(idx + k) mod FRAME_COUNT`. */
  lemma {:induction false} AdvanceFramesIsMod(idx: nat, k: nat)
    requires idx < FRAME_COUNT
    ensures AdvanceFrames(idx, k) == (idx + k) % FRAME_COUNT
  {
    if k > 0 {
      AdvanceFramesIsMod(idx, k - 1);
    }
  }

  /** Every FRAME_COUNT ticks the animation is back where it started. */
  lemma FramesCycle(idx: nat)
    requires idx < FRAME_COUNT
    ensures AdvanceFrames(idx, FRAME_COUNT) == idx
  {
    AdvanceFramesIsMod(idx, FRAME_COUNT);
  }
}
