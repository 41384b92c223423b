/** Linear resampling of mono PCM at rational positions, in the integer widths the program
    uses. An i32 operation that overflows is taken to wrap around. */
module Resampler {
  import opened Prelude

  /** `floor(n * dst / src)` samples come out. */
  function OutLength(n: nat, src: nat, dst: nat): nat
    requires src > 0
  {
    n * dst / src
  }

  /** Output sample `i` lies at `i * src / dst` in the input: this whole part ... */
  function SrcIndex(i: nat, src: nat, dst: nat): nat
    requires dst > 0
  {
    i * src / dst
  }

  /** ... and this remainder, over `dst`. */
  function Frac(i: nat, src: nat, dst: nat): nat
    requires dst > 0
  {
    i * src % dst
  }

  function Right(samples: seq<i16>, j: nat): i16
    requires j < |samples|
  {
    if j + 1 < |samples| then samples[j + 1] else samples[j]
  }

  function ClampI16(x: int): i16 {
    if x < -0x8000 then -0x8000 else if x > 0x7FFF then 0x7FFF else x
  }

  /** The interpolation as computed: the product, the casts and the sum are all i32. */
  function Interpolate(s0: i16, s1: i16, frac: nat, dst: nat): i16 {
    var product := WrapI32((s1 - s0) * WrapI32(frac));
    ClampI16(WrapI32(s0 + TruncDiv(product, Max(WrapI32(dst), 1))))
  }

  /** The interpolation without any width: `s0` plus the fraction of the step, toward zero. */
  function Exact(s0: i16, s1: i16, frac: nat, dst: nat): int
    requires dst > 0
  {
    s0 + TruncDiv((s1 - s0) * frac, dst)
  }

  lemma IndexInRange(n: nat, src: nat, dst: nat, i: nat)
    requires src > 0 && dst > 0 && i < OutLength(n, src, dst)
    ensures SrcIndex(i, src, dst) < n
    ensures SrcIndex(i, src, dst) * dst + Frac(i, src, dst) == i * src
    ensures (i + 1) * src <= n * dst
  {
    FloorTimes(n * dst, src, i + 1);
    QuotientBelow(i * src, dst, n);
  }

  lemma FloorTimes(a: nat, b: nat, k: nat)
    requires b > 0 && k <= a / b
    ensures k * b <= a
  {
    var q := a / b;
    assert q * b <= a;
    assert k * b <= q * b by { MulLe(k, q, b); }
  }

  lemma MulLe(a: nat, b: nat, c: nat)
    requires a <= b
    ensures a * c <= b * c
  {
  }

  lemma QuotientBelow(a: nat, b: nat, n: nat)
    requires b > 0 && a < n * b
    ensures a / b < n
    ensures a / b * b + a % b == a
  {
    if a / b >= n {
      MulLe(n, a / b, b);
    }
  }

  /** The input samples on either side of output sample `i`; the last one stands on both. */
  function Around(samples: seq<i16>, src: u32, dst: u32, i: nat): (i16, i16)
    requires src > 0 && dst > 0 && i < OutLength(|samples|, src, dst)
  {
    IndexInRange(|samples|, src, dst, i);
    var j := SrcIndex(i, src, dst);
    (samples[j], Right(samples, j))
  }

  function OutSample(samples: seq<i16>, src: u32, dst: u32, i: nat): i16
    requires src > 0 && dst > 0 && i < OutLength(|samples|, src, dst)
  {
    var (s0, s1) := Around(samples, src, dst, i);
    Interpolate(s0, s1, Frac(i, src, dst), dst)
  }

  function Resample(samples: seq<i16>, src: u32, dst: u32): seq<i16> {
    if src == 0 || dst == 0 || samples == [] then []
    else if src == dst then samples
    else
      seq(OutLength(|samples|, src, dst),
          i requires 0 <= i < OutLength(|samples|, src, dst) => OutSample(samples, src, dst, i))
  }

  lemma OutLengthIs(n: nat, src: nat, dst: nat)
    requires src > 0
    ensures n * dst / src == OutLength(n, src, dst)
  {
  }

  method ResampleLinearMono(samples: seq<i16>, srcRate: u32, dstRate: u32) returns (out: seq<i16>)
    ensures out == Resample(samples, srcRate, dstRate)
  {
    hide OutSample, OutLength;
    if srcRate == 0 || dstRate == 0 || |samples| == 0 {
      return [];
    }
    if srcRate == dstRate {
      return samples;
    }
    OutLengthIs(|samples|, srcRate, dstRate);
    var outLen := |samples| * dstRate / srcRate;
    out := [];
    if outLen == 0 {
      return;
    }
    for i := 0 to outLen
      invariant |out| == i
      invariant forall k :: 0 <= k < i ==> out[k] == OutSample(samples, srcRate, dstRate, k)
    {
      var sample := InterpolateAt(samples, srcRate, dstRate, i);
      out := out + [sample];
    }
  }

  method InterpolateAt(samples: seq<i16>, stepNum: u32, stepDen: u32, i: nat) returns (sample: i16)
    requires stepNum > 0 && stepDen > 0 && i < OutLength(|samples|, stepNum, stepDen)
    ensures sample == OutSample(samples, stepNum, stepDen, i)
  {
    hide ClampI16, WrapI32, TruncDiv;
    IndexInRange(|samples|, stepNum, stepDen, i);
    var posNum := i * stepNum;
    var srcIndex := posNum / stepDen;
    var fracNum: nat := posNum - srcIndex * stepDen;
    assert fracNum == Frac(i, stepNum, stepDen);
    var s0 := samples[srcIndex];
    var s1 := if srcIndex + 1 < |samples| then samples[srcIndex + 1] else s0;
    var product := WrapI32((s1 - s0) * WrapI32(fracNum));
    var interp := WrapI32(s0 + TruncDiv(product, Max(WrapI32(stepDen), 1)));
    sample := ClampI16(interp);
  }

  // ----- When the i32 arithmetic is exact -----

  lemma ProductSigns(d: int, frac: nat)
    ensures d >= 0 ==> d * frac >= 0
    ensures d <= 0 ==> d * frac <= 0
  {
  }

  lemma TruncDivBetween(d: int, frac: nat, dst: nat)
    requires frac < dst
    ensures d >= 0 ==> 0 <= TruncDiv(d * frac, dst) <= d
    ensures d <= 0 ==> d <= TruncDiv(d * frac, dst) <= 0
  {
    ProductSigns(d, frac);
    if d >= 0 {
      ScaledBelow(d, frac, dst);
    } else {
      ScaledBelow(-d, frac, dst);
      assert -(d * frac) == (-d) * frac;
    }
  }

  lemma ScaledBelow(d: nat, frac: nat, dst: nat)
    requires frac < dst
    ensures 0 <= d * frac / dst <= d
  {
    MulLe(frac, dst, d);
    assert d * frac <= d * dst;
    if d * frac / dst > d {
      FloorTimes(d * frac, dst, d + 1);
    }
  }

  lemma BoundedProduct(d: int, bound: int, frac: nat, top: nat)
    requires 0 <= bound && -bound <= d <= bound && frac <= top
    ensures -(bound * top) <= d * frac <= bound * top
  {
    MulLe(frac, top, bound);
    if d >= 0 {
      MulLe(d, bound, frac);
    } else {
      MulLe(-d, bound, frac);
      assert -(d * frac) == (-d) * frac;
    }
  }

  /** The interpolation with the product named: only the product can leave its width. */
  lemma InterpolateAs(s0: i16, s1: i16, frac: nat, dst: nat, product: int)
    requires frac < dst < 0x8000_0000 && product == (s1 - s0) * frac
    ensures Interpolate(s0, s1, frac, dst) == ClampI16(WrapI32(s0 + TruncDiv(WrapI32(product), dst)))
  {
    hide TruncDiv, ClampI16;
    WrapFits(frac);
    WrapFits(dst);
  }

  lemma WrapFits(x: int)
    ensures FitsI32(x) ==> WrapI32(x) == x
  {
  }

  /** If the product fits an i32 the result is the exact interpolation, which lies between the
      two neighbours, so the clamp changes nothing. */
  lemma ExactWhenProductFits(s0: i16, s1: i16, frac: nat, dst: nat)
    requires frac < dst < 0x8000_0000 && FitsI32((s1 - s0) * frac)
    ensures Interpolate(s0, s1, frac, dst) == Exact(s0, s1, frac, dst)
    ensures if s0 <= s1 then s0 <= Exact(s0, s1, frac, dst) <= s1 else s1 <= Exact(s0, s1, frac, dst) <= s0
  {
    hide TruncDiv, Interpolate, WrapI32;
    var product := (s1 - s0) * frac;
    InterpolateAs(s0, s1, frac, dst, product);
    WrapFits(product);
    TruncDivBetween(s1 - s0, frac, dst);
    WrapFits(s0 + TruncDiv(product, dst));
  }

  /** The computed value is the exact interpolation only if the product fits: a wrapped product
      is a multiple of 2^32 off, more than twice the target rate, so its step differs, and the
      clamp cannot make up for it. */
  lemma ExactIffProductFits(s0: i16, s1: i16, frac: nat, dst: nat)
    requires frac < dst < 0x8000_0000
    ensures Interpolate(s0, s1, frac, dst) == Exact(s0, s1, frac, dst) <==> FitsI32((s1 - s0) * frac)
  {
    hide TruncDiv, Interpolate, WrapI32;
    var product := (s1 - s0) * frac;
    if FitsI32(product) {
      ExactWhenProductFits(s0, s1, frac, dst);
    } else {
      InterpolateAs(s0, s1, frac, dst, product);
      WrappedStep(product, dst);
      StrictlyBetween(s1 - s0, frac, dst);
      WrapFits(s0 + TruncDiv(WrapI32(product), dst));
    }
  }

  /** A product that overflows wraps to another step. */
  lemma WrappedStep(product: int, dst: nat)
    requires 2 <= dst < 0x8000_0000 && !FitsI32(product)
    ensures TruncDiv(WrapI32(product), dst) != TruncDiv(product, dst)
    ensures -0x4000_0000 <= TruncDiv(WrapI32(product), dst) <= 0x4000_0000
  {
    hide WrapI32, TruncDiv;
    WrapIsFarOff(product);
    FarQuotientsDiffer(product, WrapI32(product), dst);
    QuotientOfI32(WrapI32(product), dst);
  }

  lemma FarQuotientsDiffer(a: int, b: int, c: int)
    requires c > 0 && (a - b >= 2 * c || b - a >= 2 * c)
    ensures TruncDiv(a, c) != TruncDiv(b, c)
  {
    hide TruncDiv;
    TruncDivBounds(a, c);
    TruncDivBounds(b, c);
  }

  lemma QuotientOfI32(a: int, b: int)
    requires FitsI32(a) && b >= 2
    ensures -0x4000_0000 <= TruncDiv(a, b) <= 0x4000_0000
  {
    if a >= 0 {
      HalfAtMost(a, b);
    } else {
      HalfAtMost(-a, b);
    }
  }

  lemma HalfAtMost(a: nat, b: nat)
    requires a <= 0x8000_0000 && b >= 2
    ensures 0 <= a / b <= 0x4000_0000
  {
    MulLe(2, b, 0x4000_0001);
    QuotientBelow(a, b, 0x4000_0001);
  }

  lemma WrapIsFarOff(x: int)
    requires !FitsI32(x)
    ensures WrapI32(x) <= x - TWO_32 || WrapI32(x) >= x + TWO_32
  {
  }

  /** Truncation moves a quotient toward zero, by less than one. */
  lemma TruncDivBounds(a: int, b: int)
    requires b > 0
    ensures -b < a - TruncDiv(a, b) * b < b
    ensures a >= 0 ==> 0 <= TruncDiv(a, b) * b <= a && TruncDiv(a, b) >= 0
    ensures a <= 0 ==> a <= TruncDiv(a, b) * b <= 0 && TruncDiv(a, b) <= 0
  {
    if a >= 0 {
      QuotientTimes(a, b);
    } else {
      QuotientTimes(-a, b);
      assert TruncDiv(a, b) * b == -(-a / b * b);
    }
  }

  lemma QuotientTimes(a: nat, b: nat)
    requires b > 0
    ensures 0 <= a / b && 0 <= a / b * b <= a < a / b * b + b
  {
  }

  /** A step whose product overflows leaves the left neighbour and does not reach the right one. */
  lemma StrictlyBetween(d: int, frac: nat, dst: nat)
    requires frac < dst < 0x8000_0000 && !FitsI32(d * frac)
    ensures d > 0 ==> 0 < TruncDiv(d * frac, dst) < d
    ensures d < 0 ==> d < TruncDiv(d * frac, dst) < 0
    ensures d != 0 && dst >= 2
  {
    hide TruncDiv;
    var q := TruncDiv(d * frac, dst);
    ProductSigns(d, frac);
    assert frac > 0;
    TruncDivBetween(d, frac, dst);
    TruncDivBounds(d * frac, dst);
    assert q * dst != 0;
    if d > 0 {
      MulLt(frac, dst, d);
    } else {
      MulLt(frac, dst, -d);
    }
    assert q != d;
  }

  predicate ExactAt(samples: seq<i16>, src: u32, dst: u32, i: nat)
    requires src > 0 && dst > 0 && i < OutLength(|samples|, src, dst)
  {
    var (s0, s1) := Around(samples, src, dst, i);
    OutSample(samples, src, dst, i) == Exact(s0, s1, Frac(i, src, dst), dst)
  }

  predicate ProductFitsAt(samples: seq<i16>, src: u32, dst: u32, i: nat)
    requires src > 0 && dst > 0 && i < OutLength(|samples|, src, dst)
  {
    var (s0, s1) := Around(samples, src, dst, i);
    FitsI32((s1 - s0) * Frac(i, src, dst))
  }

  predicate ProductsFit(samples: seq<i16>, src: u32, dst: u32)
    requires src > 0 && dst > 0
  {
    forall i :: 0 <= i < OutLength(|samples|, src, dst) ==> ProductFitsAt(samples, src, dst, i)
  }

  /** Every position is interpolated exactly if and only if no product overflows, and then every
      sample lies between its neighbours. */
  lemma PositionsExactIff(samples: seq<i16>, src: u32, dst: u32)
    requires src > 0 && 0 < dst < 0x8000_0000
    ensures (forall i :: 0 <= i < OutLength(|samples|, src, dst) ==> ExactAt(samples, src, dst, i)) <==>
              ProductsFit(samples, src, dst)
    ensures ProductsFit(samples, src, dst) ==>
              forall i :: 0 <= i < OutLength(|samples|, src, dst) ==>
                var (s0, s1) := Around(samples, src, dst, i);
                if s0 <= s1 then s0 <= OutSample(samples, src, dst, i) <= s1
                else s1 <= OutSample(samples, src, dst, i) <= s0
  {
    hide Interpolate, Exact, FitsI32, Around, OutLength;
    forall i | 0 <= i < OutLength(|samples|, src, dst)
      ensures ExactAt(samples, src, dst, i) <==> ProductFitsAt(samples, src, dst, i)
      ensures ProductFitsAt(samples, src, dst, i) ==>
                var (s0, s1) := Around(samples, src, dst, i);
                if s0 <= s1 then s0 <= OutSample(samples, src, dst, i) <= s1
                else s1 <= OutSample(samples, src, dst, i) <= s0
    {
      var (s0, s1) := Around(samples, src, dst, i);
      ExactIffProductFits(s0, s1, Frac(i, src, dst), dst);
      if ProductFitsAt(samples, src, dst, i) {
        ExactWhenProductFits(s0, s1, Frac(i, src, dst), dst);
      }
    }
  }

  /** Sample by sample, what a call returns; without a change of rate the interpolation is the
      sample itself. */
  lemma ResampleIs(samples: seq<i16>, src: u32, dst: u32)
    requires 0 < src && 0 < dst < 0x8000_0000
    ensures |Resample(samples, src, dst)| == OutLength(|samples|, src, dst)
    ensures forall i :: 0 <= i < OutLength(|samples|, src, dst) ==>
              Resample(samples, src, dst)[i] == OutSample(samples, src, dst, i)
  {
    hide Interpolate;
    if samples == [] {
      ExactQuotient(0, src);
    } else if src == dst {
      ExactQuotient(|samples|, src);
      forall i | 0 <= i < |samples| ensures OutSample(samples, src, dst, i) == samples[i] {
        ExactQuotient(i, src);
        InterpolateAtZero(samples[i], Right(samples, i), dst);
      }
    }
  }

  /** What a call returns is the exact interpolation everywhere if and only if no product overflows,
      and then every sample lies between its neighbours. */
  lemma ResampleExactIff(samples: seq<i16>, src: u32, dst: u32)
    requires src > 0 && 0 < dst < 0x8000_0000
    ensures var out := Resample(samples, src, dst);
            && |out| == OutLength(|samples|, src, dst)
            && ((forall i :: 0 <= i < |out| ==>
                   var (s0, s1) := Around(samples, src, dst, i);
                   out[i] == Exact(s0, s1, Frac(i, src, dst), dst)) <==> ProductsFit(samples, src, dst))
            && (ProductsFit(samples, src, dst) ==>
                  forall i :: 0 <= i < |out| ==>
                    var (s0, s1) := Around(samples, src, dst, i);
                    if s0 <= s1 then s0 <= out[i] <= s1 else s1 <= out[i] <= s0)
  {
    hide Resample, OutSample, Around, OutLength, Exact, ProductsFit;
    ResampleIs(samples, src, dst);
    PositionsExactIff(samples, src, dst);
    var out := Resample(samples, src, dst);
    if ProductsFit(samples, src, dst) {
      forall i | 0 <= i < |out|
        ensures var (s0, s1) := Around(samples, src, dst, i);
                out[i] == Exact(s0, s1, Frac(i, src, dst), dst)
      {
        assert ExactAt(samples, src, dst, i);
      }
    } else {
      var i :| 0 <= i < OutLength(|samples|, src, dst) && !ExactAt(samples, src, dst, i);
      var (s0, s1) := Around(samples, src, dst, i);
      assert out[i] != Exact(s0, s1, Frac(i, src, dst), dst);
    }
  }

  /** No adjacent samples differ by more than `step`. */
  predicate StepsWithin(samples: seq<i16>, step: int) {
    forall j :: 0 <= j < |samples| - 1 ==> -step <= samples[j + 1] - samples[j] <= step
  }

  /** The largest step between adjacent samples whose product cannot overflow at this rate. */
  function LargestStep(dst: u32): int {
    if dst <= 1 then 0xFFFF else 0x7FFF_FFFF / (dst - 1)
  }

  /** Conditions a caller can check, at any target rate: adjacent samples at most `LargestStep`
      apart, which is all samples up to 32769 Hz and steps of 44740 at 48 kHz. One more would
      overflow at the largest remainder. */
  lemma ProductsFitWhen(samples: seq<i16>, src: u32, dst: u32)
    requires src > 0 && dst > 0
    ensures StepsWithin(samples, LargestStep(dst)) || dst <= 32769 ==> ProductsFit(samples, src, dst)
    ensures dst > 1 ==> !FitsI32((LargestStep(dst) + 1) * (dst - 1))
    ensures LargestStep(48000) == 44740
  {
    var bound := LargestStep(dst);
    if dst > 1 {
      QuotientTimes(0x7FFF_FFFF, dst - 1);
    }
    if dst <= 32769 {
      AnyStepFits(dst);
    }
    if StepsWithin(samples, bound) || bound >= 0xFFFF {
      forall i | 0 <= i < OutLength(|samples|, src, dst) ensures ProductFitsAt(samples, src, dst, i) {
        IndexInRange(|samples|, src, dst, i);
        var j := SrcIndex(i, src, dst);
        BoundedProduct(Right(samples, j) - samples[j], bound, Frac(i, src, dst), dst - 1);
      }
    }
  }

  lemma AnyStepFits(dst: u32)
    requires dst <= 32769
    ensures LargestStep(dst) >= 0xFFFF
  {
    if dst > 1 && 0x7FFF_FFFF / (dst - 1) < 0xFFFF {
      QuotientTimes(0x7FFF_FFFF, dst - 1);
      MulLe(0x7FFF_FFFF / (dst - 1), 0xFFFE, dst - 1);
    }
  }

  /** The condition is not idle: a full-scale step captured at 44.1 kHz overflows, and the second
      output sample comes out at the negative rail instead of at 27442. */
  lemma FullScaleStepOverflows()
    ensures |Resample([-32768, 32767], 44100, 48000)| == 2
    ensures Resample([-32768, 32767], 44100, 48000)[1] == -32768
    ensures Exact(-32768, 32767, Frac(1, 44100, 48000), 48000) == 27442
  {
    var samples: seq<i16> := [-32768, 32767];
    assert Around(samples, 44100, 48000, 1) == (-32768, 32767);
    assert WrapI32(65535 * 44100) == -1404873796;
    assert TruncDiv(-1404873796, 48000) == -29268;
    InterpolateAs(-32768, 32767, 44100, 48000, 65535 * 44100);
    assert Resample(samples, 44100, 48000)[1] == OutSample(samples, 44100, 48000, 1);
  }

  // ----- Up and back down -----

  lemma UpPosition(n: nat, r: nat, k: nat, i: nat)
    requires r > 0 && k > 1 && i < n
    ensures OutLength(n, r, k * r) == n * k
    ensures i * k < n * k
    ensures SrcIndex(i * k, r, k * r) == i && Frac(i * k, r, k * r) == 0
  {
    assert k * r > 0 by { MulPositive(k, r); }
    assert n * (k * r) == (n * k) * r;
    ExactQuotient(n * k, r);
    MulLt(i, n, k);
    assert i * k * r == i * (k * r);
    ExactQuotient(i, k * r);
  }

  lemma DownPosition(n: nat, r: nat, k: nat, i: nat)
    requires r > 0 && k > 1 && i < n
    ensures OutLength(n * k, k * r, r) == n
    ensures SrcIndex(i, k * r, r) == i * k && Frac(i, k * r, r) == 0
  {
    assert k * r > 0 by { MulPositive(k, r); }
    assert n * k * r == n * (k * r);
    ExactQuotient(n, k * r);
    assert i * (k * r) == (i * k) * r;
    ExactQuotient(i * k, r);
  }

  lemma MulPositive(a: nat, b: nat)
    requires a > 0 && b > 0
    ensures a * b > 0
  {
  }

  lemma MulLt(a: nat, b: nat, c: nat)
    requires a < b && c > 0
    ensures a * c < b * c
  {
  }

  lemma QuotientUnique(a: nat, b: nat, q: nat, r: nat)
    requires a == q * b + r && r < b
    ensures a / b == q && a % b == r
  {
    var d := a / b;
    assert a == d * b + a % b;
    if d < q {
      MulLe(d + 1, q, b);
    } else if q < d {
      MulLe(q + 1, d, b);
    }
  }

  lemma ExactQuotient(q: nat, b: nat)
    requires b > 0
    ensures q * b / b == q && q * b % b == 0
  {
    QuotientUnique(q * b, b, q, 0);
  }

  lemma InterpolateAtZero(s0: i16, s1: i16, dst: nat)
    ensures Interpolate(s0, s1, 0, dst) == s0
  {
    assert (s1 - s0) * 0 == 0;
  }

  /** Upsampling by a whole factor and back returns the original samples, for every input, rate
      and factor; the overflow above cannot disturb it. */
  lemma UpThenDown(samples: seq<i16>, r: u32, k: nat)
    requires r > 0 && k > 0 && k * r < TWO_32
    ensures Resample(Resample(samples, r, k * r), k * r, r) == samples
  {
    var n := |samples|;
    if n > 0 && k > 1 {
      assert k * r > r by { MulLt(1, k, r); }
      UpPosition(n, r, k, 0);
      var up := Resample(samples, r, k * r);
      assert |up| == n * k > 0;
      DownPosition(n, r, k, 0);
      var down := Resample(up, k * r, r);
      assert |down| == n;
      forall i | 0 <= i < n ensures down[i] == samples[i] {
        UpPosition(n, r, k, i);
        DownPosition(n, r, k, i);
        InterpolateAtZero(samples[i], Right(samples, i), k * r);
        assert up[i * k] == samples[i];
        InterpolateAtZero(up[i * k], Right(up, i * k), r);
      }
    } else if n > 0 {
      assert k * r == r;
    }
  }

  /** The 64-bit positions do not overflow for fewer than 2^32 samples. */
  lemma PositionsFit(n: nat, src: u32, dst: u32, i: nat)
    requires src > 0 && dst > 0 && n < TWO_32 && i < OutLength(n, src, dst)
    ensures n * dst < TWO_64 && i * src < TWO_64
  {
    IndexInRange(n, src, dst, i);
    MulLe(n, TWO_32, dst);
    assert (i + 1) * src == i * src + src;
  }

  // ----- The line between two samples -----

  /** The exact value is the point of the straight line between the samples at `frac / dst`, rounded
      toward the left one. */
  lemma ExactIsOnTheLine(s0: i16, s1: i16, frac: nat, dst: nat)
    requires frac < dst
    ensures var e, step := Exact(s0, s1, frac, dst), (s1 - s0) * frac;
            && step - (e - s0) * dst < dst && (e - s0) * dst - step < dst
            && (s0 <= s1 ==> (e - s0) * dst <= step && s0 <= e)
            && (s0 >= s1 ==> (e - s0) * dst >= step && e <= s0)
  {
    hide TruncDiv;
    ProductSigns(s1 - s0, frac);
    TruncDivBounds((s1 - s0) * frac, dst);
  }

  /** Where output sample `i` lies: at `i * src / dst` between sample `j` and the one after it, which
      at the end of the input is the same one. */
  lemma AroundIsNeighbours(samples: seq<i16>, src: u32, dst: u32, i: nat) returns (j: nat)
    requires src > 0 && dst > 0 && i < OutLength(|samples|, src, dst)
    ensures j < |samples| && j * dst <= i * src < j * dst + dst
    ensures Frac(i, src, dst) == i * src - j * dst
    ensures Around(samples, src, dst, i) == (samples[j], samples[Min(j + 1, |samples| - 1)])
  {
    IndexInRange(|samples|, src, dst, i);
    j := SrcIndex(i, src, dst);
  }
}
