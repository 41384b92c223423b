/** Scaling a captured frame down to the limits of a screen share. */
module ScreenFit {
  import opened Prelude
  import Resampler

  datatype Size = Size(width: u32, height: u32)

  /** The other side after scaling `side` by `limit / of`: at least 1, at most what a u32 holds. */
  function Scale(side: u32, limit: u32, of: u32): u32
    requires of > 0
  {
    Min(Max(side * limit / of, 1), TWO_32 - 1)
  }

  predicate Within(s: Size, limit: Size) {
    s.width <= limit.width && s.height <= limit.height
  }

  function Fit(s: Size, limit: Size): Size {
    if s.width == 0 || s.height == 0 || limit.width == 0 || limit.height == 0 then s
    else if Within(s, limit) then s
    else
      var height := Scale(s.height, limit.width, s.width);
      if height <= limit.height then Size(limit.width, height)
      else Size(Scale(s.width, limit.height, s.height), limit.height)
  }

  lemma QuotientAtLeast(a: nat, b: nat, q: nat)
    requires b > 0 && q * b <= a
    ensures q <= a / b
  {
    if a / b < q {
      Resampler.QuotientBelow(a, b, q + 1);
      Resampler.MulLe(a / b + 1, q, b);
    }
  }

  lemma ScaleDown(side: u32, limit: u32, of: u32)
    requires side > 0 && 0 < limit <= of
    ensures 1 <= Scale(side, limit, of) <= side
  {
    Resampler.MulLe(limit, of, side);
    if side * limit / of > side {
      Resampler.FloorTimes(side * limit, of, side + 1);
    }
  }

  lemma ScaleUp(side: u32, limit: u32, of: u32)
    requires side > 0 && 0 < of <= limit
    ensures Scale(side, limit, of) >= side
  {
    Resampler.MulLe(of, limit, side);
    QuotientAtLeast(side * limit, of, side);
  }

  /** If scaling to the width makes the height too large, scaling to the height fits the width. */
  lemma OtherSideFits(s: Size, limit: Size)
    requires s.width > 0 && s.height > 0 && limit.width > 0 && limit.height > 0
    requires Scale(s.height, limit.width, s.width) > limit.height
    ensures Scale(s.width, limit.height, s.height) <= limit.width
  {
    Resampler.FloorTimes(s.height * limit.width, s.width, limit.height + 1);
    Resampler.MulLe(limit.height, limit.height + 1, s.width);
    assert s.width * limit.height < limit.width * s.height;
    Resampler.QuotientBelow(s.width * limit.height, s.height, limit.width);
  }

  predicate HasArea(s: Size) {
    s.width > 0 && s.height > 0
  }

  /** If neither the frame nor the limits are empty the result is within the limits and never
      larger than the frame; it is the frame itself if that fits, and otherwise reaches one limit.
      An empty frame or limit changes nothing, and fitting again never does. */
  lemma FitIsTight(s: Size, limit: Size)
    ensures var r := Fit(s, limit);
            && Within(r, s)
            && (HasArea(s) <==> HasArea(r))
            && (Within(r, limit) <==> Within(s, limit) || (HasArea(s) && HasArea(limit)))
            && (r == s <==> Within(s, limit) || !HasArea(s) || !HasArea(limit))
            && (r != s ==> r.width == limit.width || r.height == limit.height)
            && Fit(r, limit) == r
  {
    hide Scale;
    if !Within(s, limit) && HasArea(s) && HasArea(limit) {
      if Scale(s.height, limit.width, s.width) <= limit.height {
        if s.width <= limit.width {
          ScaleUp(s.height, limit.width, s.width);
        } else {
          ScaleDown(s.height, limit.width, s.width);
        }
      } else {
        OtherSideFits(s, limit);
        if s.height <= limit.height {
          ScaleDown(s.height, limit.width, s.width);
        } else {
          ScaleDown(s.width, limit.height, s.height);
        }
      }
    }
  }

  /** `part` is `product / of` rounded down, but at least one and at most what a u32 holds. */
  predicate IsShare(part: u32, product: nat, of: u32) {
    && part >= 1
    && (part * of <= product || part == 1)
    && (product < part * of + of || part == TWO_32 - 1)
  }

  /** One side reaches its limit and the other is its share of that. */
  predicate KeepsShape(s: Size, r: Size, limit: Size) {
    || (r.width == limit.width && IsShare(r.height, s.height * limit.width, s.width))
    || (r.height == limit.height && IsShare(r.width, s.width * limit.height, s.height))
  }

  lemma ScaleIsShare(side: u32, limit: u32, of: u32)
    requires of > 0
    ensures IsShare(Scale(side, limit, of), side * limit, of)
  {
    hide IsShare;
    QuotientIsShare(side * limit, of);
  }

  lemma QuotientIsShare(product: nat, of: u32)
    requires of > 0
    ensures IsShare(Min(Max(product / of, 1), TWO_32 - 1), product, of)
  {
    var q: nat := product / of;
    Resampler.QuotientTimes(product, of);
    if q >= TWO_32 - 1 {
      Resampler.MulLe(TWO_32 - 1, q, of);
    }
  }

  /** A frame that is scaled keeps its shape. */
  lemma FitKeepsShape(s: Size, limit: Size)
    requires HasArea(s) && HasArea(limit) && !Within(s, limit)
    ensures KeepsShape(s, Fit(s, limit), limit)
  {
    hide Scale, IsShare;
    ScaleIsShare(s.height, limit.width, s.width);
    ScaleIsShare(s.width, limit.height, s.height);
  }
}
