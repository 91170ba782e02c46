/**
 * The geometry `doOneFrame` derives from the cursor, and the ordered list of
 * drawing calls one frame issues.  Pixels and Porter-Duff blending are not
 * modelled: a frame is the sequence of `drawBitmap` calls with their rectangles
 * and paint alphas.
 */
module Frame {
  import opened JavaNum
  import opened AspectFill
  import opened Resources

  /** One `drawBitmap` call of a frame, in the order the frame makes them. */
  datatype DrawCmd =
    | DrawDark(dst: Rect)               // dark picture over the buffer
    | DrawLight(src: Rect, dst: Rect)   // a patch of the light picture into the slider canvas
    | MaskSlider(dst: Rect, alpha: int) // slider mask onto the slider canvas, destination-in
    | PlaceSlider(dst: Rect)            // slider canvas into the buffer
    | DrawEyes(dst: Rect)               // eyes sprite into the eyes canvas, shifted
    | MaskEyes(dst: Rect, alpha: int)   // eyes mask onto the eyes canvas, destination-in
    | PlaceEyes(x: int, y: int)         // eyes canvas into the buffer at the anchor
    | DrawOverlay(dst: Rect)            // touch overlay over the buffer
    | Blit(dst: Rect)                   // buffer onto the screen, source-copy

  /** The scene layer a call paints: background, slider, eyes, overlay, screen. */
  function Layer(c: DrawCmd): nat
  {
    match c
    case DrawDark(_) => 0
    case DrawLight(_, _) => 1
    case MaskSlider(_, _) => 1
    case PlaceSlider(_) => 1
    case DrawEyes(_) => 2
    case MaskEyes(_, _) => 2
    case PlaceEyes(_, _) => 2
    case DrawOverlay(_) => 3
    case Blit(_) => 4
  }

  /** The buffer extents are known, as they are once `loadBitmaps` has run. */
  predicate LayoutReady(l: Layout)
  {
    l.buffer.width > 0 && l.buffer.height > 0
  }

  /** Where the slider lands in the buffer: a slider-sized box around the cursor, truncated to ints. */
  function SliderDest(cx: real, cy: real, l: Layout): Rect
  {
    var x0 := cx - l.sliderCenterX as real;
    var y0 := cy - l.sliderCenterY as real;
    Rect(TruncToInt(x0), TruncToInt(y0),
         TruncToInt(x0 + l.slider.width as real), TruncToInt(y0 + l.slider.height as real))
  }

  /**
   * The slider box is the slider's size or one pixel narrower (or shorter),
   * the loss coming from truncation toward zero; it is exactly the slider's
   * size on an axis whose near edge is non-negative.
   */
  lemma SliderDestExtent(cx: real, cy: real, l: Layout)
    ensures var r := SliderDest(cx, cy, l);
      l.slider.width - 1 <= r.right - r.left <= l.slider.width &&
      l.slider.height - 1 <= r.bottom - r.top <= l.slider.height &&
      (cx >= l.sliderCenterX as real ==> r.right - r.left == l.slider.width) &&
      (cy >= l.sliderCenterY as real ==> r.bottom - r.top == l.slider.height)
  {
    TruncPlusWhole(cx - l.sliderCenterX as real, l.slider.width);
    TruncPlusWhole(cy - l.sliderCenterY as real, l.slider.height);
  }

  /** The slider canvas extent, as the frame writes it: width by width. */
  function SliderSource(l: Layout): Rect
  {
    Rect(0, 0, l.slider.width, l.slider.width)
  }

  /**
   * Taking the slider width for both sides covers exactly the slider canvas,
   * because the slider is cropped for a square target and so is square.
   */
  lemma SliderSourceIsWholeSlider(a: Assets, w: nat, h: nat)
    requires AssetsDecoded(a) && SurfaceSupported(a, w, h)
    ensures var l := LoadBitmaps(a, w, h);
      SliderSource(l) == Rect(0, 0, l.slider.width, l.slider.height)
  {
  }

  /** How far the eyes sprite is shifted in its canvas, horizontally and vertically. */
  function EyesOffsetX(cx: real, bw: int): int
    requires bw > 0
  {
    JavaDiv((TruncToInt(cx) - JavaDiv(bw, 2) + 2) * 70, bw)
  }

  function EyesOffsetY(cy: real, bh: int): int
    requires bh > 0
  {
    JavaDiv((TruncToInt(cy) - JavaDiv(bh, 2) + 2) * 14, bh)
  }

  /** The parallax numerator of one axis lies in [-k*b, (k + 1)*b) for a cursor coordinate in [0, b]. */
  lemma ParallaxNumeratorBound(t: int, b: int, k: nat)
    requires b > 5 * k && 0 <= t <= b
    ensures var n := (t - JavaDiv(b, 2) + 2) * (2 * k); -(k * b) <= n < (k + 1) * b
  {
    var half := b / 2;
    assert JavaDiv(b, 2) == half;
    var s := t - half + 2;
    // 2 - b/2 <= s <= b - b/2 + 2, so -k*b <= s*2k <= k*b + 5k
    assert 2 * (b - half) <= b + 1 && 2 * half <= b;
    MulMonotone(s, b - half + 2, 2 * k);
    MulMonotone(2 - half, s, 2 * k);
    assert (b - half + 2) * (2 * k) == (2 * (b - half)) * k + 4 * k;
    MulMonotone(2 * (b - half), b + 1, k);
    assert (2 - half) * (2 * k) == 4 * k - (2 * half) * k;
    MulMonotone(2 * half, b, k);
    assert (b + 1) * k == k * b + k;
    assert (k + 1) * b == k * b + b;
  }

  /** A Java quotient by b of a value in [-k*b, (k + 1)*b) lies in [-k, k]. */
  lemma QuotientWithin(n: int, b: int, k: nat)
    requires b > 0 && -(k * b) <= n < (k + 1) * b
    ensures -(k as int) <= JavaDiv(n, b) <= k
  {
    var q := JavaDiv(n, b);
    JavaDivIsJavaQuotient(n, b);
    assert (-(k as int) - 1) * b == -(k * b) - b;
    MulMonotone(k + 1, q, b);
    MulMonotone(q, -(k as int) - 1, b);
  }

  /** The parallax arithmetic of one axis keeps its result within [-k, k] on a big enough extent. */
  lemma ParallaxBound(t: int, b: int, k: nat)
    requires b > 5 * k && 0 <= t <= b
    ensures -(k as int) <= JavaDiv((t - JavaDiv(b, 2) + 2) * (2 * k), b) <= k
  {
    ParallaxNumeratorBound(t, b, k);
    QuotientWithin((t - JavaDiv(b, 2) + 2) * (2 * k), b, k);
  }

  /**
   * While the cursor is inside the buffer the eyes move at most 35 pixels
   * sideways and 7 pixels up or down, given a buffer wider than 175 and
   * taller than 35 pixels.
   */
  lemma EyesOffsetBounds(cx: real, cy: real, bw: int, bh: int)
    requires bw > 175 && bh > 35
    requires 0.0 <= cx <= bw as real && 0.0 <= cy <= bh as real
    ensures -35 <= EyesOffsetX(cx, bw) <= 35
    ensures -7 <= EyesOffsetY(cy, bh) <= 7
  {
    TruncMonotone(cx, bw as real);
    TruncMonotone(cy, bh as real);
    ParallaxBound(TruncToInt(cx), bw, 35);
    ParallaxBound(TruncToInt(cy), bh, 7);
  }

  /** The eyes follow the cursor: moving it right (or down) never moves them left (or up). */
  lemma EyesOffsetMonotone(c: real, c': real, b: int)
    requires b > 0 && c <= c'
    ensures EyesOffsetX(c, b) <= EyesOffsetX(c', b)
    ensures EyesOffsetY(c, b) <= EyesOffsetY(c', b)
  {
    TruncMonotone(c, c');
    var s, s' := TruncToInt(c) - JavaDiv(b, 2) + 2, TruncToInt(c') - JavaDiv(b, 2) + 2;
    MulMonotone(s, s', 70);
    MulMonotone(s, s', 14);
    JavaDivMonotone(s * 70, s' * 70, b);
    JavaDivMonotone(s * 14, s' * 14, b);
  }

  /** Where the shifted eyes sprite is drawn in its canvas. */
  function EyesRect(cx: real, cy: real, l: Layout): Rect
    requires LayoutReady(l)
  {
    var x := EyesOffsetX(cx, l.buffer.width);
    var y := EyesOffsetY(cy, l.buffer.height);
    Rect(x, y, l.eyes.width + x, l.eyes.height + y)
  }

  /**
   * The drawing calls of one frame that got past the loaded-and-visible guard:
   * the overlay only while touched, the blit to the screen only when the
   * surface is valid and locked.
   */
  function FrameCommands(cx: real, cy: real, touched: bool, sliderAlpha: int, eyesAlpha: int,
                         l: Layout, surfaceValid: bool): seq<DrawCmd>
    requires LayoutReady(l)
  {
    var dest := SliderDest(cx, cy, l);
    var core := [
      DrawDark(l.imageRect),
      DrawLight(dest, SliderSource(l)),
      MaskSlider(SliderSource(l), sliderAlpha),
      PlaceSlider(dest),
      DrawEyes(EyesRect(cx, cy, l)),
      MaskEyes(l.eyesMaskRect, eyesAlpha),
      PlaceEyes(l.eyesX, l.eyesY)];
    var overlay := if touched then [DrawOverlay(l.imageRect)] else [];
    var screen := if surfaceValid then [Blit(l.screenRect)] else [];
    core + overlay + screen
  }

  /**
   * The order of a frame's drawing calls: the dark background first; the
   * layers never go backwards; the overlay exactly while touched; the blit
   * exactly when the surface is valid, and then last.
   */
  lemma FrameCommandsOrder(cx: real, cy: real, touched: bool, sliderAlpha: int, eyesAlpha: int,
                           l: Layout, surfaceValid: bool)
    requires LayoutReady(l)
    ensures var cmds := FrameCommands(cx, cy, touched, sliderAlpha, eyesAlpha, l, surfaceValid);
      (|cmds| == 7 + (if touched then 1 else 0) + (if surfaceValid then 1 else 0)) &&
      (cmds[0] == DrawDark(l.imageRect)) &&
      (forall i, j :: 0 <= i < j < |cmds| ==> Layer(cmds[i]) <= Layer(cmds[j])) &&
      ((DrawOverlay(l.imageRect) in cmds) <==> touched) &&
      ((Blit(l.screenRect) in cmds) <==> surfaceValid) &&
      (surfaceValid ==> cmds[|cmds| - 1] == Blit(l.screenRect))
  {
  }

  /**
   * Where a frame's slider and eyes calls draw: the light is sampled at the
   * box where the slider is placed, the eyes are shifted by the parallax
   * offset, and the masks use the given paint alphas.
   */
  lemma FrameCommandsGeometry(cx: real, cy: real, touched: bool, sliderAlpha: int, eyesAlpha: int,
                              l: Layout, surfaceValid: bool)
    requires LayoutReady(l)
    ensures var cmds := FrameCommands(cx, cy, touched, sliderAlpha, eyesAlpha, l, surfaceValid);
      |cmds| >= 7 &&
      (cmds[1] == DrawLight(SliderDest(cx, cy, l), SliderSource(l))) &&
      (cmds[2] == MaskSlider(SliderSource(l), sliderAlpha)) &&
      (cmds[3] == PlaceSlider(SliderDest(cx, cy, l))) &&
      (cmds[1].src == cmds[3].dst) &&
      (cmds[4] == DrawEyes(EyesRect(cx, cy, l))) &&
      (cmds[5] == MaskEyes(l.eyesMaskRect, eyesAlpha)) &&
      (cmds[6] == PlaceEyes(l.eyesX, l.eyesY))
  {
  }
}
