/**
 * The bounding-box scale of the `transform` step: the source size is
 * multiplied by `min(maxWidth / width, maxHeight / height)`. JavaScript
 * numbers are modelled as exact reals; the handlers do no rounding.
 */
module Scaling {

  datatype Size = Size(width: real, height: real)

  function Min(a: real, b: real): real { if a <= b then a else b }

  /** The scaling factor: the largest factor at which the image still fits the box. */
  function ScaleFactor(maxWidth: nat, maxHeight: nat, width: nat, height: nat): (f: real)
    requires maxWidth > 0 && maxHeight > 0 && width > 0 && height > 0
    ensures f > 0.0
    ensures f * width as real <= maxWidth as real && f * height as real <= maxHeight as real
    ensures f * width as real == maxWidth as real || f * height as real == maxHeight as real
  {
    var fw := maxWidth as real / width as real;
    var fh := maxHeight as real / height as real;
    assert fw * width as real == maxWidth as real;
    assert fh * height as real == maxHeight as real;
    if fw <= fh then
      assert fw * height as real <= fh * height as real;
      fw
    else
      assert fh * width as real <= fw * width as real;
      fh
  }

  /**
   * The size passed to `resize`: both sides scaled by the same factor, so
   * the result fits the box, reaches it on one side and keeps the aspect
   * ratio exactly.
   */
  function Fit(maxWidth: nat, maxHeight: nat, width: nat, height: nat): (s: Size)
    requires maxWidth > 0 && maxHeight > 0 && width > 0 && height > 0
    ensures s.width <= maxWidth as real && s.height <= maxHeight as real
    ensures s.width == maxWidth as real || s.height == maxHeight as real
    ensures s.width * height as real == s.height * width as real
    ensures s.width > 0.0 && s.height > 0.0
  {
    var f := ScaleFactor(maxWidth, maxHeight, width, height);
    Size(f * width as real, f * height as real)
  }

  /** No factor larger than the scaling factor lets the image fit the box. */
  lemma ScaleFactorIsLargest(maxWidth: nat, maxHeight: nat, width: nat, height: nat, k: real)
    requires maxWidth > 0 && maxHeight > 0 && width > 0 && height > 0
    requires k * width as real <= maxWidth as real && k * height as real <= maxHeight as real
    ensures k <= ScaleFactor(maxWidth, maxHeight, width, height)
  {
    var f := ScaleFactor(maxWidth, maxHeight, width, height);
    if f * width as real == maxWidth as real {
      assert k * width as real <= f * width as real;
    } else {
      assert k * height as real <= f * height as real;
    }
  }

  /** An image smaller than the box on both sides is enlarged, never shrunk: the code does not guard against upscaling. */
  lemma FitEnlargesSmallImages(maxWidth: nat, maxHeight: nat, width: nat, height: nat)
    requires maxWidth > 0 && maxHeight > 0 && width > 0 && height > 0
    requires width <= maxWidth && height <= maxHeight
    ensures Fit(maxWidth, maxHeight, width, height).width >= width as real
    ensures Fit(maxWidth, maxHeight, width, height).height >= height as real
  {
    var f := ScaleFactor(maxWidth, maxHeight, width, height);
    assert 1.0 * width as real <= maxWidth as real && 1.0 * height as real <= maxHeight as real;
    ScaleFactorIsLargest(maxWidth, maxHeight, width, height, 1.0);
    assert Fit(maxWidth, maxHeight, width, height) == Size(f * width as real, f * height as real);
    ScaledUp(f, width as real);
    ScaledUp(f, height as real);
  }

  /** A factor of at least one does not shrink a non-negative side. */
  lemma ScaledUp(f: real, x: real)
    requires f >= 1.0 && x >= 0.0
    ensures f * x >= x
  {
    var d := f - 1.0;
    assert d * x >= 0.0;
    assert f * x == x + d * x;
  }

  /** A 1000 by 500 source becomes 500 by 250 in a 500 by 500 box and 800 by 400 in an 800 by 1920 box. */
  lemma FitExamples()
    ensures Fit(500, 500, 1000, 500) == Size(500.0, 250.0)
    ensures Fit(800, 1920, 1000, 500) == Size(800.0, 400.0)
  {
  }
}
