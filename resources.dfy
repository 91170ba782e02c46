/**
 * What `loadBitmaps` prepares for a surface size: the extents of the cropped
 * images and compositing buffers, the eyes anchor, and the factors that map
 * surface coordinates to buffer coordinates.  Images appear only by size.
 */
module Resources {
  import opened JavaNum
  import opened AspectFill

  /** Native size of the dark picture, and where the eyes sit in it. */
  const RAW_WIDTH: int := 2297
  const RAW_HEIGHT: int := 2290
  const EYES_LOC_X: int := 915
  const EYES_LOC_Y: int := 950

  /** An Android `Rect`: left, top, right and bottom edges. */
  datatype Rect = Rect(left: int, top: int, right: int, bottom: int)

  /** The native sizes of the six bundled pictures. */
  datatype Assets = Assets(dark: Size, light: Size, slider: Size, eyes: Size, eyesMask: Size, overlay: Size)

  predicate AssetsDecoded(a: Assets)
  {
    Decoded(a.dark) && Decoded(a.light) && Decoded(a.slider) &&
    Decoded(a.eyes) && Decoded(a.eyesMask) && Decoded(a.overlay)
  }

  predicate CropNonEmpty(src: Size, w: nat, h: nat)
    requires Decoded(src)
  {
    var c := CenterCrop(src, w, h);
    c.w > 0 && c.h > 0
  }

  /**
   * The surfaces `loadBitmaps` can prepare for: a positive size whose crops of
   * the light, dark and overlay pictures are not empty (`createBitmap` throws on
   * an empty rectangle; the square slider crop never is).
   */
  predicate SurfaceSupported(a: Assets, w: nat, h: nat)
    requires AssetsDecoded(a)
  {
    w > 0 && h > 0 &&
    CropNonEmpty(a.light, w, h) && CropNonEmpty(a.dark, w, h) && CropNonEmpty(a.overlay, w, h)
  }

  /** The fields `loadBitmaps` assigns, by value. */
  datatype Layout = Layout(
    screenRect: Rect,      // the whole surface
    imageRect: Rect,       // the extent of the cropped light picture
    buffer: Size,          // the frame buffer: the cropped dark picture's size
    slider: Size,          // the cropped slider mask and its canvas
    sliderCenterX: int,
    sliderCenterY: int,
    eyes: Size,            // the eyes sprite and its canvas, at native size
    eyesMaskRect: Rect,    // the eyes mask, at native size
    eyesX: int,            // where the eyes canvas is placed in the buffer
    eyesY: int,
    scaleX: real,          // surface-to-buffer scale factors
    scaleY: real)

  /** The engine's fields before the first surface change. */
  const InitialLayout: Layout :=
    Layout(Rect(0, 0, 0, 0), Rect(0, 0, 0, 0), Size(0, 0), Size(0, 0), 0, 0,
           Size(0, 0), Rect(0, 0, 0, 0), 0, 0, 0.0, 0.0)

  /** The size of the bitmap `makeBitmap` returns. */
  function CroppedTo(src: Size, w: nat, h: nat): Size
    requires Decoded(src)
  {
    CroppedSize(CenterCrop(src, w, h))
  }

  /** How far the eyes move from their native spot when the dark picture is cropped to `dark`. */
  function EyesAnchorX(dark: Size): int
  {
    EYES_LOC_X - JavaDiv(RAW_WIDTH - dark.width, 2)
  }

  function EyesAnchorY(dark: Size): int
  {
    EYES_LOC_Y - JavaDiv(RAW_HEIGHT - dark.height, 2)
  }

  function Min(a: nat, b: nat): nat
  {
    if a <= b then a else b
  }

  /** `(float) d / w`: the factor that stretches an extent of `w` onto one of `d`. */
  function Scale(d: nat, w: nat): (s: real)
    requires w > 0
    ensures s * (w as real) == d as real && (w as real) * s == d as real
    ensures d > 0 ==> s > 0.0
  {
    (d as real) / (w as real)
  }

  lemma RealMulMonotone(x: real, y: real, k: real)
    requires x <= y && k >= 0.0
    ensures x * k <= y * k
  {
  }

  /** The layout `loadBitmaps` computes for a surface of `w` by `h` pixels. */
  function LoadBitmaps(a: Assets, w: nat, h: nat): (l: Layout)
    requires AssetsDecoded(a) && SurfaceSupported(a, w, h)
    ensures l.buffer == CroppedTo(a.dark, w, h)
    ensures l.buffer.width > 0 && l.buffer.height > 0
    ensures l.imageRect == Rect(0, 0, CroppedTo(a.light, w, h).width, CroppedTo(a.light, w, h).height)
    ensures l.screenRect == Rect(0, 0, w, h)
    ensures l.slider.width == l.slider.height == Min(a.slider.width, a.slider.height)
    ensures l.eyes == a.eyes
    ensures l.eyesMaskRect == Rect(0, 0, a.eyesMask.width, a.eyesMask.height)
    ensures l.scaleX == Scale(l.buffer.width, w)
    ensures l.scaleY == Scale(l.buffer.height, h)
  {
    var light := CroppedTo(a.light, w, h);
    var m := Min(w, h);
    SquareTargetSquareCrop(a.slider, m);
    var slider := CroppedTo(a.slider, m, m);
    var dark := CroppedTo(a.dark, w, h);
    CropPassThrough(a.eyes, 0, 0);
    CropPassThrough(a.eyesMask, 0, 0);
    var eyes := CroppedTo(a.eyes, 0, 0);
    var eyesMask := CroppedTo(a.eyesMask, 0, 0);
    var scaleX, scaleY := Scale(dark.width, w), Scale(dark.height, h);
    Layout(
      Rect(0, 0, w, h),
      Rect(0, 0, light.width, light.height),
      dark,
      slider,
      slider.width / 2,
      slider.height / 2,
      eyes,
      Rect(0, 0, eyesMask.width, eyesMask.height),
      EyesAnchorX(dark),
      EyesAnchorY(dark),
      scaleX,
      scaleY)
  }

  /**
   * For the bundled dark picture the eyes anchor is the eyes' native location
   * shifted by exactly the crop offset, so the eyes stay where they belong on
   * the cropped face.
   */
  lemma EyesAnchorTracksCrop(a: Assets, w: nat, h: nat)
    requires AssetsDecoded(a) && SurfaceSupported(a, w, h)
    requires a.dark == Size(RAW_WIDTH, RAW_HEIGHT)
    ensures var l := LoadBitmaps(a, w, h); var c := CenterCrop(a.dark, w, h);
      l.eyesX == EYES_LOC_X - c.x && l.eyesY == EYES_LOC_Y - c.y
  {
    CropOffsetIsHalfTrim(a.dark, w, h);
  }

  /** Which surfaces are supported, in terms of the sizes alone. */
  lemma SurfaceSupportedIff(a: Assets, w: nat, h: nat)
    requires AssetsDecoded(a) && w > 0 && h > 0
    ensures SurfaceSupported(a, w, h) <==>
      (w <= a.light.width * h && h <= a.light.height * w) &&
      (w <= a.dark.width * h && h <= a.dark.height * w) &&
      (w <= a.overlay.width * h && h <= a.overlay.height * w)
  {
    CropNonEmptyIff(a.light, w, h);
    CropNonEmptyIff(a.dark, w, h);
    CropNonEmptyIff(a.overlay, w, h);
  }

  /**
   * A coordinate on a surface side of `w` pixels, times the scale factor
   * onto `d` buffer pixels, lands in [0, d].
   */
  lemma ScaledInto(p: real, w: nat, d: nat)
    requires w > 0 && 0.0 <= p <= w as real
    ensures 0.0 <= p * Scale(d, w) <= d as real
  {
    var k := Scale(d, w);
    RealMulMonotone(p, w as real, k);
    RealMulMonotone(0.0, p, k);
  }

  /** The bundled dark picture on a 1000 by 2000 surface: the eyes move 576 pixels left. */
  lemma EyesAnchorWorkedExample(a: Assets)
    requires AssetsDecoded(a) && a.dark == Size(RAW_WIDTH, RAW_HEIGHT)
    requires SurfaceSupported(a, 1000, 2000)
    ensures LoadBitmaps(a, 1000, 2000).buffer == Size(1145, 2290)
    ensures LoadBitmaps(a, 1000, 2000).eyesX == 339 && LoadBitmaps(a, 1000, 2000).eyesY == 950
  {
    CropWorkedExample();
  }
}
