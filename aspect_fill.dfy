/**
 * The crop arithmetic of `makeBitmap`: an aspect-fill centre crop of a decoded
 * image to the aspect ratio of a target size.  Images are modelled only by
 * their width and height; the crop is the rectangle handed to
 * `Bitmap.createBitmap(source, x, y, w, h)`.
 */
module AspectFill {
  import opened JavaNum

  datatype Size = Size(width: nat, height: nat)

  /** The sub-rectangle of a source image, as offset and extent. */
  datatype Crop = Crop(x: nat, y: nat, w: nat, h: nat)

  /** A decoded image always has a positive width and height. */
  predicate Decoded(src: Size)
  {
    src.width > 0 && src.height > 0
  }

  /**
   * `dstWidth / dstHeight > srcWidth / srcHeight` on doubles, compared by
   * cross-multiplication, which is exact on positive integers.
   */
  predicate TargetWider(src: Size, dstW: nat, dstH: nat)
  {
    dstW * src.height > src.width * dstH
  }

  /**
   * The crop `makeBitmap` takes.  The `(int)` casts of the double products
   * become floor division, which is what they compute on non-negative values.
   */
  function CenterCrop(src: Size, dstW: nat, dstH: nat): Crop
    requires Decoded(src)
  {
    if dstH == 0 || dstW == 0 then
      Crop(0, 0, src.width, src.height)
    else if TargetWider(src, dstW, dstH) then
      var hSrc := src.width * dstH / dstW;
      TrimmedExtent(src.width, src.height, dstW, dstH);
      Crop(0, JavaDiv(src.height - hSrc, 2), src.width, hSrc)
    else
      var wSrc := src.height * dstW / dstH;
      TrimmedExtent(src.height, src.width, dstH, dstW);
      Crop(JavaDiv(src.width - wSrc, 2), 0, wSrc, src.height)
  }

  /** The image `createBitmap` returns for a crop. */
  function CroppedSize(c: Crop): Size
  {
    Size(c.w, c.h)
  }

  lemma FloorDiv(n: nat, d: nat)
    requires d > 0
    ensures (n / d) * d <= n < (n / d + 1) * d
  {
  }

  lemma MulDivCancel(a: nat, b: nat)
    requires b > 0
    ensures (a * b) / b == a
  {
    var q := (a * b) / b;
    FloorDiv(a * b, b);
    assert (q + 1) * b == q * b + b && (a + 1) * b == a * b + b;
    MulMonotone(q + 1, a, b);
    MulMonotone(a + 1, q, b);
  }

  /** The trimmed extent never exceeds the source on the trimmed axis. */
  lemma TrimmedExtent(full: nat, other: nat, dFull: nat, dOther: nat)
    requires dFull > 0 && dOther > 0
    requires dFull * other >= full * dOther
    ensures full * dOther / dFull <= other
  {
    var t := full * dOther / dFull;
    FloorDiv(full * dOther, dFull);
    assert (other + 1) * dFull == dFull * other + dFull;
    MulMonotone(other + 1, t, dFull);
  }

  /** A zero target dimension passes the source through unchanged. */
  lemma CropPassThrough(src: Size, dstW: nat, dstH: nat)
    requires Decoded(src)
    requires dstW == 0 || dstH == 0
    ensures CenterCrop(src, dstW, dstH) == Crop(0, 0, src.width, src.height)
  {
  }

  /** The crop always lies inside the source image. */
  lemma CropInsideSource(src: Size, dstW: nat, dstH: nat)
    requires Decoded(src)
    ensures var c := CenterCrop(src, dstW, dstH);
      c.x + c.w <= src.width && c.y + c.h <= src.height
  {
    if dstW > 0 && dstH > 0 {
      if TargetWider(src, dstW, dstH) {
        TrimmedExtent(src.width, src.height, dstW, dstH);
      } else {
        TrimmedExtent(src.height, src.width, dstH, dstW);
      }
    }
  }

  /**
   * The crop keeps one axis of the source whole and trims the other from both
   * ends equally, up to one pixel that goes to the far end.
   */
  lemma CropCentred(src: Size, dstW: nat, dstH: nat)
    requires Decoded(src)
    ensures var c := CenterCrop(src, dstW, dstH);
      ((c.x == 0 && c.w == src.width) || (c.y == 0 && c.h == src.height)) &&
      0 <= (src.width - c.x - c.w) - c.x <= 1 &&
      0 <= (src.height - c.y - c.h) - c.y <= 1
  {
    CropInsideSource(src, dstW, dstH);
  }

  /**
   * The crop has the target's aspect ratio as nearly as whole pixels allow: the
   * wider aspect keeps the full width and the largest height not exceeding the
   * target's proportion, and otherwise the full height and the largest width.
   */
  lemma CropMatchesAspect(src: Size, dstW: nat, dstH: nat)
    requires Decoded(src) && dstW > 0 && dstH > 0
    ensures var c := CenterCrop(src, dstW, dstH);
      if TargetWider(src, dstW, dstH) then
        c.w == src.width && c.h * dstW <= c.w * dstH < (c.h + 1) * dstW
      else
        c.h == src.height && c.w * dstH <= c.h * dstW < (c.w + 1) * dstH
  {
    if TargetWider(src, dstW, dstH) {
      FloorDiv(src.width * dstH, dstW);
    } else {
      FloorDiv(src.height * dstW, dstH);
      assert src.height * dstW == dstW * src.height;
    }
  }

  /** When the aspect ratios already agree, the crop is the whole source. */
  lemma CropOfMatchingAspect(src: Size, dstW: nat, dstH: nat)
    requires Decoded(src) && dstW > 0 && dstH > 0
    requires dstW * src.height == src.width * dstH
    ensures CenterCrop(src, dstW, dstH) == Crop(0, 0, src.width, src.height)
  {
    assert !TargetWider(src, dstW, dstH);
    assert src.height * dstW == src.width * dstH;
    MulDivCancel(src.width, dstH);
  }

  /** The worked case: a 2297 by 2290 image cropped for a 1000 by 2000 surface. */
  lemma CropWorkedExample()
    ensures CenterCrop(Size(2297, 2290), 1000, 2000) == Crop(576, 0, 1145, 2290)
  {
  }

  /** The crop's offset on either axis is half of what was trimmed from that axis, rounded down. */
  lemma CropOffsetIsHalfTrim(src: Size, dstW: nat, dstH: nat)
    requires Decoded(src)
    ensures var c := CenterCrop(src, dstW, dstH);
      c.x == JavaDiv(src.width - c.w, 2) && c.y == JavaDiv(src.height - c.h, 2)
  {
  }

  /**
   * `createBitmap` refuses an empty rectangle.  For a positive target the crop
   * is non-empty exactly when neither target side exceeds the other side times
   * the source's matching dimension.
   */
  lemma CropNonEmptyIff(src: Size, dstW: nat, dstH: nat)
    requires Decoded(src) && dstW > 0 && dstH > 0
    ensures var c := CenterCrop(src, dstW, dstH);
      (c.w > 0 && c.h > 0) <==> (dstW <= src.width * dstH && dstH <= src.height * dstW)
  {
    if TargetWider(src, dstW, dstH) {
      TrimmedPositive(src.width, src.height, dstW, dstH);
    } else {
      assert dstH * src.width >= src.height * dstW;
      TrimmedPositive(src.height, src.width, dstH, dstW);
    }
  }

  lemma TrimmedPositive(full: nat, other: nat, dFull: nat, dOther: nat)
    requires full > 0 && dFull > 0 && dOther > 0
    requires dFull * other >= full * dOther
    ensures full * dOther / dFull > 0 <==> dFull <= full * dOther
    ensures dOther <= other * dFull
  {
    FloorDiv(full * dOther, dFull);
    MulMonotone(1, full, dOther);
    assert dFull * other == other * dFull;
  }

  /** A square target yields a square crop whose side is the source's shorter side. */
  lemma SquareTargetSquareCrop(src: Size, m: nat)
    requires Decoded(src) && m > 0
    ensures var c := CenterCrop(src, m, m);
      c.w == c.h && c.w == (if src.width <= src.height then src.width else src.height)
  {
    MulDivCancel(src.width, m);
    MulDivCancel(src.height, m);
    assert TargetWider(src, m, m) <==> src.height > src.width by {
      assert m * src.height == src.height * m;
      if src.height > src.width {
        MulMonotone(src.width + 1, src.height, m);
      } else {
        MulMonotone(src.height, src.width, m);
      }
    }
  }
}
