/**
 * The size arithmetic of `shrink` and `grow`.
 *
 * Only the target dimensions are modelled: the resampling itself is done by
 * the imaging library. `shrink` brings the long side to 128 pixels and scales
 * the short side by the same factor, rounding down; `grow` resizes to exactly
 * the dimensions it is given, which the pipeline uses to restore the size of
 * the upload.
 */
module Resize {

  /** Image dimensions in pixels, (width, height) as the imaging library reports them. */
  datatype Size = Size(width: nat, height: nat)

  /** The length of the long side after shrinking. */
  const Bound: nat := 128

  /** The target size of `shrink`; the short side is the floor of `128 * short / long`. */
  function Shrink(s: Size): (t: Size)
    ensures s.width > s.height ==>
      t.width == Bound && s.width * t.height <= Bound * s.height < s.width * t.height + s.width
    ensures s.height > s.width ==>
      t.height == Bound && s.height * t.width <= Bound * s.width < s.height * t.width + s.height
    ensures s.width == s.height ==> t == Size(Bound, Bound)
  {
    if s.width > s.height then
      FloorDivBounds(Bound * s.height, s.width);
      Size(Bound, (Bound * s.height) / s.width)
    else if s.height > s.width then
      FloorDivBounds(Bound * s.width, s.height);
      Size((Bound * s.width) / s.height, Bound)
    else
      Size(Bound, Bound)
  }

  /** Integer division rounds down: the quotient is the largest q with q * d <= n. */
  lemma FloorDivBounds(n: nat, d: nat)
    requires d > 0
    ensures d * (n / d) <= n < d * (n / d) + d
  {
  }

  /** The target size of `grow`: the requested dimensions, whatever the image's size. */
  function Grow(s: Size, width: nat, height: nat): (t: Size)
    ensures t.width == width && t.height == height
  {
    Size(width, height)
  }

  /** When the sides differ, the short side ends strictly below the bound, and the long side on it. */
  lemma ShortSideBelowBound(s: Size)
    requires s.width != s.height
    ensures Shrink(s).width <= Bound && Shrink(s).height <= Bound
    ensures s.width > s.height ==> Shrink(s).height < Bound
    ensures s.height > s.width ==> Shrink(s).width < Bound
  {
    var t := Shrink(s);
    if s.width > s.height {
      CancelFactor(s.width, t.height, Bound);
    } else {
      CancelFactor(s.height, t.width, Bound);
    }
  }

  /** A positive factor can be cancelled from both sides of a strict inequality. */
  lemma CancelFactor(d: nat, x: nat, y: nat)
    requires d * x < d * y
    ensures x < y
  {
  }

  /**
   * The short side rounds down to 0 exactly when it is less than 1/128 of the
   * long side; the imaging library then refuses the resize.
   */
  lemma ShortSideZero(s: Size)
    ensures s.width > s.height ==> (Shrink(s).height == 0 <==> Bound * s.height < s.width)
    ensures s.height > s.width ==> (Shrink(s).width == 0 <==> Bound * s.width < s.height)
  {
    var t := Shrink(s);
    if s.width > s.height && Bound * s.height < s.width {
      assert s.width * t.height < s.width * 1;
      CancelFactor(s.width, t.height, 1);
    } else if s.height > s.width && Bound * s.width < s.height {
      assert s.height * t.width < s.height * 1;
      CancelFactor(s.height, t.width, 1);
    }
  }

  /** Shrinking keeps the orientation: a landscape image stays landscape or square, and so on. */
  lemma ShrinkKeepsOrientation(s: Size)
    ensures s.width >= s.height ==> Shrink(s).width >= Shrink(s).height
    ensures s.height >= s.width ==> Shrink(s).height >= Shrink(s).width
  {
    if s.width != s.height {
      ShortSideBelowBound(s);
    }
  }

  /** Growing a shrunk image back to the upload's dimensions restores them exactly. */
  lemma RestoresSize(w: nat, h: nat)
    ensures Grow(Shrink(Size(w, h)), w, h) == Size(w, h)
  {
  }

  /** Worked examples: a 256x128 image shrinks to 128x64, a 100x100 one to 128x128. */
  lemma ShrinkExamples()
    ensures Shrink(Size(256, 128)) == Size(128, 64)
    ensures Shrink(Size(100, 100)) == Size(128, 128)
    ensures Shrink(Size(300, 150)) == Size(128, 64)
    ensures Shrink(Size(150, 300)) == Size(64, 128)
  {
  }
}
