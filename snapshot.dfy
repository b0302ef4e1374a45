/**
 * The resize arithmetic of `screenshot_robot` in tasks.py: the captured
 * preview is rescaled to a fixed width of 500 keeping its aspect ratio.
 */
module Snapshot {
  import opened Maybe

  /** Pixel dimensions of an image. */
  datatype Size = Size(width: nat, height: nat)

  /** The canonical snapshot width. */
  const TargetWidth: nat := 500

  /**
   * The size passed to `image.resize`: `(500, int(h * (500 / w)))`, with the
   * float product read as exact division truncated toward zero. A zero width
   * raises ZeroDivisionError in the source; here it gives None.
   */
  function ResizeTarget(captured: Size): (target: Option<Size>)
    ensures target.None? <==> captured.width == 0
    ensures target.Some? ==> target.value.width == TargetWidth
    ensures target.Some? ==>
      target.value.height * captured.width <= captured.height * TargetWidth
      < (target.value.height + 1) * captured.width
    ensures target.Some? ==> (target.value.height == 0 <==> captured.height * TargetWidth < captured.width)
  {
    if captured.width == 0 then None
    else
      var h := captured.height * TargetWidth / captured.width;
      DivBounds(captured.height * TargetWidth, captured.width);
      DivZero(captured.height * TargetWidth, captured.width);
      Some(Size(TargetWidth, h))
  }

  /**
   * A capture that `screenshot_robot` can resize: a non-zero width, and a
   * target height of at least one pixel (the image library rejects a zero
   * dimension).
   */
  predicate Resizable(captured: Size)
  {
    captured.width > 0 && captured.width <= captured.height * TargetWidth
  }

  /** Resizable captures are exactly those whose target exists and has a positive height. */
  lemma ResizableTarget(captured: Size)
    ensures Resizable(captured) <==> ResizeTarget(captured).Some? && ResizeTarget(captured).value.height > 0
  {
  }

  /** A capture much wider than tall truncates to a zero target height. */
  lemma FlatCaptureTruncatesToZero()
    ensures ResizeTarget(Size(1000, 1)) == Some(Size(TargetWidth, 0))
    ensures !Resizable(Size(1000, 1))
  {
    ResizeHeightUnique(Size(1000, 1), 0);
  }

  /** Truncating division brackets its dividend between two multiples of the divisor. */
  lemma DivBounds(x: nat, d: nat)
    requires d > 0
    ensures (x / d) * d <= x < (x / d + 1) * d
  {
    assert x == (x / d) * d + x % d;
  }

  /** Truncating division is zero exactly when the dividend is below the divisor. */
  lemma DivZero(x: nat, d: nat)
    requires d > 0
    ensures x / d == 0 <==> x < d
  {
    DivBounds(x, d);
    if x / d > 0 {
      MulMonotone(1, x / d, d);
    }
  }

  /** The truncated height is the only height the bracket of ResizeTarget admits. */
  lemma ResizeHeightUnique(captured: Size, h: nat)
    requires captured.width > 0
    requires h * captured.width <= captured.height * TargetWidth < (h + 1) * captured.width
    ensures ResizeTarget(captured) == Some(Size(TargetWidth, h))
  {
    var t := ResizeTarget(captured).value.height;
    var w := captured.width;
    if t < h {
      assert (t + 1) * w <= h * w by { MulMonotone(t + 1, h, w); }
    } else if h < t {
      assert (h + 1) * w <= t * w by { MulMonotone(h + 1, t, w); }
    }
  }

  lemma MulMonotone(a: nat, b: nat, w: nat)
    requires a <= b
    ensures a * w <= b * w
  {
  }

  /** An image already at the canonical width keeps its height. */
  lemma ResizeAtTargetWidth(captured: Size)
    requires captured.width == TargetWidth
    ensures ResizeTarget(captured) == Some(captured)
  {
    ResizeHeightUnique(captured, captured.height);
  }

  /** A taller capture of the same width never gives a shorter target. */
  lemma ResizeMonotone(c1: Size, c2: Size)
    requires c1.width == c2.width > 0 && c1.height <= c2.height
    ensures ResizeTarget(c1).value.height <= ResizeTarget(c2).value.height
  {
    var w := c1.width;
    var t1, t2 := ResizeTarget(c1).value.height, ResizeTarget(c2).value.height;
    if t2 < t1 {
      MulMonotone(t2 + 1, t1, w);
      MulMonotone(c1.height, c2.height, TargetWidth);
    }
  }
}
