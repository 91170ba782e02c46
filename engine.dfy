/**
 * `MedusaWallpaper.MedusaEngine`: the wallpaper engine's state and the event
 * callbacks that update it in place.  The main-thread `Handler` queue is kept
 * only as the number of `frameTask` entries it holds; bitmaps are kept only as
 * the sizes recorded in a `Layout`, plus whether the compositing canvas exists
 * and whether `onDestroy` has released the bitmaps.
 */
module Engine {
  import opened JavaNum
  import opened AspectFill
  import opened Resources
  import opened Motion
  import opened Frame

  const EYES_TOUCH_ALPHA: int := 255
  const EYES_ALPHA: int := 85
  const SLIDER_TOUCH_ALPHA: int := 255
  const SLIDER_ALPHA: int := 100

  /** The paint alphas that go with a touch state: full while touched, dimmed otherwise. */
  function SliderAlphaFor(touched: bool): int
  {
    if touched then SLIDER_TOUCH_ALPHA else SLIDER_ALPHA
  }

  function EyesAlphaFor(touched: bool): int
  {
    if touched then EYES_TOUCH_ALPHA else EYES_ALPHA
  }

  /** `MotionEvent.getAction()`: the three handled actions, and every other one. */
  datatype Action = Down | Up | Move | Other

  /**
   * What one run of `doOneFrame` does: nothing (not loaded or not visible),
   * fails on the bitmaps `onDestroy` released, or issues its drawing calls.
   */
  datatype FrameOutcome = Idle | Faulted | Drawn(cmds: seq<DrawCmd>)

  class MedusaEngine {
    const assets: Assets
    var isVisible: bool
    var isTouched: bool
    var loaded: bool      // the compositing canvas exists (`bufferCanvas != null`)
    var released: bool    // `onDestroy` has recycled and dropped the bitmaps
    var layout: Layout
    var currentX: real
    var currentY: real
    var vX: real
    var vY: real
    var sliderAlpha: int
    var eyesAlpha: int
    var pending: nat      // `frameTask` entries in the handler queue

    /** The paint alphas always match the touch state, and a loaded engine knows its buffer size. */
    ghost predicate Valid()
      reads this
    {
      AssetsDecoded(assets) &&
      sliderAlpha == SliderAlphaFor(isTouched) && eyesAlpha == EyesAlphaFor(isTouched) &&
      (loaded ==> LayoutReady(layout))
    }

    constructor (a: Assets)
      requires AssetsDecoded(a)
      ensures Valid() && assets == a
      ensures !isVisible && !isTouched && !loaded && !released && pending == 0
      ensures layout == InitialLayout
      ensures currentX == 0.0 && currentY == 0.0 && vX == MIN_VY && vY == MIN_VY
      ensures sliderAlpha == SLIDER_ALPHA && eyesAlpha == EYES_ALPHA
    {
      assets := a;
      isVisible, isTouched, loaded, released := false, false, false, false;
      layout := InitialLayout;
      currentX, currentY := 0.0, 0.0;
      vX, vY := MIN_VY, MIN_VY;
      sliderAlpha, eyesAlpha := SLIDER_ALPHA, EYES_ALPHA;
      pending := 0;
    }

    /** `onDestroy`: drop every pending frame and release the bitmaps. */
    method OnDestroy()
      requires Valid()
      modifies this`pending, this`released
      ensures Valid()
      ensures pending == 0 && released
    {
      pending := 0;
      released := true;
    }

    /** `onVisibilityChanged`: showing schedules exactly one frame, hiding cancels all. */
    method OnVisibilityChanged(visible: bool)
      requires Valid()
      modifies this`isVisible, this`pending
      ensures Valid()
      ensures isVisible == visible
      ensures pending == (if visible then 1 else 0)
    {
      isVisible := visible;
      pending := 0;  // removeCallbacks
      if visible {
        pending := pending + 1;  // post
      }
    }

    /**
     * `onSurfaceChanged`: prepare the bitmaps for the new size, re-centre the
     * cursor in the buffer and schedule exactly one frame.  The velocity is kept.
     */
    method OnSurfaceChanged(width: nat, height: nat)
      requires Valid()
      requires SurfaceSupported(assets, width, height)
      modifies this`layout, this`loaded, this`released, this`currentX, this`currentY, this`pending
      ensures Valid()
      ensures loaded && !released
      ensures layout == LoadBitmaps(assets, width, height)
      ensures currentX == (layout.buffer.width / 2) as real
      ensures currentY == (layout.buffer.height / 2) as real
      ensures InRange(currentX, layout.buffer.width as real) && InRange(currentY, layout.buffer.height as real)
      ensures pending == 1
    {
      layout := LoadBitmaps(assets, width, height);
      loaded, released := true, false;
      currentX := (layout.buffer.width / 2) as real;
      currentY := (layout.buffer.height / 2) as real;
      pending := 0;
      pending := pending + 1;
    }

    /**
     * `onTouchEvent`: map the event to buffer coordinates; a down or an up
     * flips the touch state and the alphas, an up also derives the free-run
     * velocity from the last step; every handled action posts a frame.
     */
    method OnTouchEvent(action: Action, x: real, y: real)
      requires Valid()
      modifies this`currentX, this`currentY, this`isTouched, this`sliderAlpha, this`eyesAlpha,
               this`vX, this`vY, this`pending
      ensures Valid()
      ensures currentX == x * layout.scaleX && currentY == y * layout.scaleY
      ensures isTouched == (if action.Down? then true else if action.Up? then false else old(isTouched))
      ensures action.Up? ==>
        vX == ReleaseVelocity(currentX - old(currentX), MIN_VX, MAX_VX) &&
        vY == ReleaseVelocity(currentY - old(currentY), MIN_VY, MAX_VY)
      ensures !action.Up? ==> vX == old(vX) && vY == old(vY)
      ensures action.Move? || action.Other? ==> sliderAlpha == old(sliderAlpha) && eyesAlpha == old(eyesAlpha)
      ensures pending == old(pending) + (if action.Other? then 0 else 1)
    {
      var prevX, prevY := currentX, currentY;
      currentX := x * layout.scaleX;
      currentY := y * layout.scaleY;
      match action
      case Down =>
        isTouched := true;
        sliderAlpha, eyesAlpha := SLIDER_TOUCH_ALPHA, EYES_TOUCH_ALPHA;
        pending := pending + 1;
      case Up =>
        isTouched := false;
        sliderAlpha, eyesAlpha := SLIDER_ALPHA, EYES_ALPHA;
        vX := currentX - prevX;
        if vX == 0.0 {
          vX := MIN_VX;
        } else if RealAbs(vX) < MIN_VX {
          vX := MIN_VX * Signum(vX);
        } else if RealAbs(vX) > MAX_VX {
          vX := MAX_VX * Signum(vX);
        }
        vY := currentY - prevY;
        if vY == 0.0 {
          vY := MIN_VY;
        } else if RealAbs(vY) < MIN_VY {
          vY := MIN_VY * Signum(vY);
        } else if RealAbs(vY) > MAX_VY {
          vY := MAX_VY * Signum(vY);
        }
        pending := pending + 1;
      case Move =>
        pending := pending + 1;
      case Other =>
    }

    /**
     * `doOneFrame`: when loaded and visible, compose the frame; then, while
     * touched, cancel the pending frames, and otherwise advance the cursor one
     * bouncing step and post one delayed frame.
     */
    method DoOneFrame(surfaceValid: bool) returns (outcome: FrameOutcome)
      requires Valid()
      modifies this`currentX, this`currentY, this`vX, this`vY, this`pending
      ensures Valid()
      ensures !(loaded && isVisible) ==> outcome == Idle && unchanged(this)
      ensures loaded && isVisible && released ==> outcome == Faulted && unchanged(this)
      ensures loaded && isVisible && !released ==>
        outcome == Drawn(FrameCommands(old(currentX), old(currentY), isTouched, sliderAlpha, eyesAlpha,
                                       layout, surfaceValid))
      ensures outcome.Drawn? && isTouched ==>
        currentX == old(currentX) && currentY == old(currentY) && vX == old(vX) && vY == old(vY) &&
        pending == 0
      ensures outcome.Drawn? && !isTouched ==>
        Axis(currentX, vX) == BounceAxis(old(currentX), old(vX), layout.buffer.width as real) &&
        Axis(currentY, vY) == BounceAxis(old(currentY), old(vY), layout.buffer.height as real) &&
        pending == old(pending) + 1
    {
      if !(loaded && isVisible) {
        return Idle;
      }
      if released {
        return Faulted;
      }
      var cmds := FrameCommands(currentX, currentY, isTouched, sliderAlpha, eyesAlpha, layout, surfaceValid);
      if isTouched {
        pending := 0;  // removeCallbacks
      } else {
        FreeRunStep();
        pending := pending + 1;  // postDelayed
      }
      outcome := Drawn(cmds);
    }

    /** The free-running branch of `doOneFrame`: advance by the velocity and bounce off the buffer edges. */
    method FreeRunStep()
      requires Valid() && loaded
      modifies this`currentX, this`currentY, this`vX, this`vY
      ensures Valid()
      ensures Axis(currentX, vX) == BounceAxis(old(currentX), old(vX), layout.buffer.width as real)
      ensures Axis(currentY, vY) == BounceAxis(old(currentY), old(vY), layout.buffer.height as real)
    {
      var w, h := layout.buffer.width as real, layout.buffer.height as real;
      currentX := currentX + vX;
      if currentX < 0.0 {
        vX := -vX;
        currentX := 0.0;
      } else if currentX > w {
        vX := -vX;
        currentX := w;
      }
      currentY := currentY + vY;
      if currentY < 0.0 {
        vY := -vY;
        currentY := 0.0;
      } else if currentY > h {
        vY := -vY;
        currentY := h;
      }
    }

    /** The handler takes one `frameTask` off its queue and runs it. */
    method RunFrameTask(surfaceValid: bool) returns (outcome: FrameOutcome)
      requires Valid() && pending > 0
      modifies this`currentX, this`currentY, this`vX, this`vY, this`pending
      ensures Valid()
      ensures outcome == Idle <==> !(loaded && isVisible)
      ensures outcome == Faulted <==> loaded && isVisible && released
      ensures outcome.Drawn? <==> loaded && isVisible && !released
      ensures !outcome.Drawn? ==>
        currentX == old(currentX) && currentY == old(currentY) && vX == old(vX) && vY == old(vY) &&
        pending == old(pending) - 1
      ensures outcome.Drawn? ==>
        outcome == Drawn(FrameCommands(old(currentX), old(currentY), isTouched, sliderAlpha, eyesAlpha,
                                       layout, surfaceValid))
      ensures outcome.Drawn? && isTouched ==>
        currentX == old(currentX) && currentY == old(currentY) && vX == old(vX) && vY == old(vY) &&
        pending == 0
      ensures outcome.Drawn? && !isTouched ==>
        Axis(currentX, vX) == BounceAxis(old(currentX), old(vX), layout.buffer.width as real) &&
        Axis(currentY, vY) == BounceAxis(old(currentY), old(vY), layout.buffer.height as real) &&
        pending == old(pending)
    {
      pending := pending - 1;
      outcome := DoOneFrame(surfaceValid);
    }
  }

  /** A touch-down followed by a touch-up at the same point leaves the minimum forward velocity. */
  method TouchDownUpInPlace(e: MedusaEngine, x: real, y: real)
    requires e.Valid()
    modifies e
    ensures e.Valid() && !e.isTouched
    ensures e.vX == MIN_VX && e.vY == MIN_VY
    ensures e.sliderAlpha == SLIDER_ALPHA && e.eyesAlpha == EYES_ALPHA
    ensures e.pending == old(e.pending) + 2
  {
    ghost var l := e.layout;
    e.OnTouchEvent(Down, x, y);
    assert e.currentX == x * l.scaleX && e.currentY == y * l.scaleY;
    e.OnTouchEvent(Up, x, y);
    assert e.layout == l;
    // the up lands where the down did, so the step it measures is zero
    assert e.currentX == x * l.scaleX && e.currentY == y * l.scaleY;
  }

  /** The draw calls of the `n`-th untouched frame after the cursor starts at `x`, `y`. */
  function UntouchedFrame(x: Axis, y: Axis, l: Layout, surfaceValid: bool, n: nat): seq<DrawCmd>
    requires LayoutReady(l)
  {
    FrameCommands(FreeRun(x, l.buffer.width as real, n).pos, FreeRun(y, l.buffer.height as real, n).pos,
                  false, SLIDER_ALPHA, EYES_ALPHA, l, surfaceValid)
  }

  /**
   * One task of `RunUntouchedFrames`: the `i`-th frame after the start takes the
   * cursor one `FreeRun` step further and appends its draw calls to `before`.
   */
  method RunUntouchedFrame(e: MedusaEngine, ax: Axis, ay: Axis, i: nat, surfaceValid: bool, before: seq<seq<DrawCmd>>)
    returns (frames: seq<seq<DrawCmd>>)
    requires e.Valid() && e.loaded && e.isVisible && !e.released && !e.isTouched && e.pending > 0
    requires before == UntouchedFrames(ax, ay, e.layout, surfaceValid, i)
    requires Axis(e.currentX, e.vX) == FreeRun(ax, e.layout.buffer.width as real, i)
    requires Axis(e.currentY, e.vY) == FreeRun(ay, e.layout.buffer.height as real, i)
    modifies e`currentX, e`currentY, e`vX, e`vY, e`pending
    ensures e.Valid() && e.pending == old(e.pending)
    ensures Axis(e.currentX, e.vX) == FreeRun(ax, e.layout.buffer.width as real, i + 1)
    ensures Axis(e.currentY, e.vY) == FreeRun(ay, e.layout.buffer.height as real, i + 1)
    ensures frames == UntouchedFrames(ax, ay, e.layout, surfaceValid, i + 1)
  {
    var w, h := e.layout.buffer.width as real, e.layout.buffer.height as real;
    FreeRunSplit(ax, w, i, 1);
    FreeRunSplit(ay, h, i, 1);
    var outcome := e.RunFrameTask(surfaceValid);
    frames := before + [outcome.cmds];
  }

  /** The draw calls of the first `n` untouched frames, in order. */
  function UntouchedFrames(x: Axis, y: Axis, l: Layout, surfaceValid: bool, n: nat): (frames: seq<seq<DrawCmd>>)
    requires LayoutReady(l)
    ensures |frames| == n
  {
    if n == 0 then [] else UntouchedFrames(x, y, l, surfaceValid, n - 1) + [UntouchedFrame(x, y, l, surfaceValid, n - 1)]
  }

  /**
   * Frame `i` of a free run draws the slider and the eyes where `i` bounce
   * steps have taken the cursor, with the dimmed alphas and no overlay.
   */
  lemma {:induction false} UntouchedFramesAt(x: Axis, y: Axis, l: Layout, surfaceValid: bool, n: nat, i: nat)
    requires LayoutReady(l) && i < n
    ensures UntouchedFrames(x, y, l, surfaceValid, n)[i] ==
      FrameCommands(FreeRun(x, l.buffer.width as real, i).pos, FreeRun(y, l.buffer.height as real, i).pos,
                    false, SLIDER_ALPHA, EYES_ALPHA, l, surfaceValid)
    decreases n
  {
    if i < n - 1 {
      UntouchedFramesAt(x, y, l, surfaceValid, n - 1, i);
    }
  }

  /**
   * The handler running `k` queued frame tasks on a loaded, visible engine that
   * is not touched: every frame bounces the cursor once and re-posts itself, so
   * the cursor follows `FreeRun`, the queue keeps its length, and frame `i`
   * draws the slider at the cursor `FreeRun` reaches after `i` steps.
   */
  method RunUntouchedFrames(e: MedusaEngine, k: nat, surfaceValid: bool) returns (frames: seq<seq<DrawCmd>>)
    requires e.Valid() && e.loaded && e.isVisible && !e.released && !e.isTouched && e.pending > 0
    modifies e`currentX, e`currentY, e`vX, e`vY, e`pending
    ensures e.Valid()
    ensures Axis(e.currentX, e.vX) == FreeRun(Axis(old(e.currentX), old(e.vX)), e.layout.buffer.width as real, k)
    ensures Axis(e.currentY, e.vY) == FreeRun(Axis(old(e.currentY), old(e.vY)), e.layout.buffer.height as real, k)
    ensures e.pending == old(e.pending)
    ensures frames == UntouchedFrames(Axis(old(e.currentX), old(e.vX)), Axis(old(e.currentY), old(e.vY)), e.layout, surfaceValid, k)
  {
    var w, h := e.layout.buffer.width as real, e.layout.buffer.height as real;
    var ax, ay := Axis(e.currentX, e.vX), Axis(e.currentY, e.vY);
    frames := [];
    var i := 0;
    while i < k
      invariant 0 <= i <= k
      invariant e.Valid()
      invariant Axis(e.currentX, e.vX) == FreeRun(ax, w, i)
      invariant Axis(e.currentY, e.vY) == FreeRun(ay, h, i)
      invariant e.pending == old(e.pending)
      invariant frames == UntouchedFrames(ax, ay, e.layout, surfaceValid, i)
    {
      frames := RunUntouchedFrame(e, ax, ay, i, surfaceValid, frames);
      i := i + 1;
    }
  }
}
