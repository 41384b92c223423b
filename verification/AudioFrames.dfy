/** Channel adaptation and 20 ms framing of PCM. */
module AudioFrames {
  import opened Prelude
  import Resampler

  // ----- Channel adaptation -----

  function SumFrom(pcm: seq<i16>, start: nat, n: nat): int
    requires start + n <= |pcm|
  {
    if n == 0 then 0 else SumFrom(pcm, start, n - 1) + pcm[start + n - 1]
  }

  /** The i32 accumulator cannot overflow, and the average of i16 samples is one again. */
  lemma {:induction false} SumFits(pcm: seq<i16>, start: nat, n: nat)
    requires start + n <= |pcm| && n < TWO_16
    ensures -0x8000 * n <= SumFrom(pcm, start, n) <= 0x7FFF * n
    ensures FitsI32(SumFrom(pcm, start, n))
    ensures n > 0 ==> -0x8000 <= TruncDiv(SumFrom(pcm, start, n), n) <= 0x7FFF
  {
    if n == 0 {
    } else {
      SumFits(pcm, start, n - 1);
      AverageFits(SumFrom(pcm, start, n), n);
    }
  }

  lemma AverageFits(sum: int, n: nat)
    requires n > 0 && -0x8000 * n <= sum <= 0x7FFF * n
    ensures -0x8000 <= TruncDiv(sum, n) <= 0x7FFF
  {
    if sum >= 0 {
      Resampler.QuotientBelow(sum, n, 0x8000);
    } else {
      Resampler.QuotientBelow(-sum, n, 0x8001);
    }
  }

  lemma FrameInRange(length: nat, src: nat, f: nat)
    requires src > 0 && f < length / src
    ensures f * src + src <= length
  {
    Resampler.FloorTimes(length, src, f + 1);
    assert (f + 1) * src == f * src + src;
  }

  /** Channel `c` of output frame `f`. */
  function AdaptedSample(pcm: seq<i16>, src: u16, dst: u16, f: nat, c: nat): i16
    requires src > 0 && f < |pcm| / src
  {
    FrameInRange(|pcm|, src, f);
    if src == 1 && dst > 1 then pcm[f]
    else if dst == 1 then
      SumFits(pcm, f * src, src);
      TruncDiv(SumFrom(pcm, f * src, src), src)
    else if c < src then pcm[f * src + c]
    else 0
  }

  /** The interleaved output of the first `n` frames. */
  function AdaptedFrames(pcm: seq<i16>, src: u16, dst: u16, n: nat): (out: seq<i16>)
    requires src > 0 && n <= |pcm| / src
    ensures |out| == n * dst
  {
    if n == 0 then []
    else
      assert n * dst == (n - 1) * dst + dst;
      AdaptedFrames(pcm, src, dst, n - 1) + AdaptedFrame(pcm, src, dst, n - 1)
  }

  function AdaptedFrame(pcm: seq<i16>, src: u16, dst: u16, f: nat): (out: seq<i16>)
    requires src > 0 && f < |pcm| / src
    ensures |out| == dst
  {
    seq(dst, c requires 0 <= c < dst => AdaptedSample(pcm, src, dst, f, c))
  }

  function Adapt(pcm: seq<i16>, src: u16, dst: u16): seq<i16> {
    if src == 0 || dst == 0 || pcm == [] then []
    else if src == dst then pcm
    else AdaptedFrames(pcm, src, dst, |pcm| / src)
  }

  method AdaptChannels(pcm: seq<i16>, src: u16, dst: u16) returns (out: seq<i16>)
    ensures out == Adapt(pcm, src, dst)
  {
    if src == 0 || dst == 0 || |pcm| == 0 {
      return [];
    }
    if src == dst {
      return pcm;
    }
    var frames := |pcm| / src;
    out := [];
    for f := 0 to frames
      invariant out == AdaptedFrames(pcm, src, dst, f)
    {
      var adapted := AdaptFrame(pcm, src, dst, f);
      out := out + adapted;
    }
  }

  /** One frame of each of the three loops: repeat the mono sample, average down, or copy the
      common channels and fill with silence. */
  method AdaptFrame(pcm: seq<i16>, src: u16, dst: u16, f: nat) returns (out: seq<i16>)
    requires src > 0 && dst > 0 && src != dst && f < |pcm| / src
    ensures out == AdaptedFrame(pcm, src, dst, f)
  {
    hide TruncDiv, SumFrom;
    FrameInRange(|pcm|, src, f);
    out := [];
    if dst == 1 {
      var average := Average(pcm, f * src, src);
      return [average];
    }
    for c := 0 to dst
      invariant |out| == c
      invariant forall k :: 0 <= k < c ==> out[k] == AdaptedSample(pcm, src, dst, f, k)
    {
      var sample := ChannelSample(pcm, src, dst, f, c);
      out := out + [sample];
    }
  }

  method ChannelSample(pcm: seq<i16>, src: u16, dst: u16, f: nat, c: nat) returns (sample: i16)
    requires src > 0 && dst > 1 && src != dst && f < |pcm| / src && c < dst
    ensures sample == AdaptedSample(pcm, src, dst, f, c)
  {
    FrameInRange(|pcm|, src, f);
    var start := f * src;
    if src == 1 {
      sample := pcm[f];
    } else if c < Min(src, dst) {
      sample := pcm[start + c];
    } else {
      sample := 0;
    }
  }

  method Average(pcm: seq<i16>, start: nat, src: u16) returns (average: i16)
    requires src > 0 && start + src <= |pcm|
    ensures average == TruncDiv(SumFrom(pcm, start, src), src)
  {
    hide TruncDiv;
    var acc: i32 := 0;
    for c := 0 to src
      invariant acc == SumFrom(pcm, start, c)
    {
      SumFits(pcm, start, c + 1);
      acc := acc + pcm[start + c];
    }
    SumFits(pcm, start, src);
    average := TruncDiv(acc, src);
  }

  lemma {:induction false} AdaptedAt(pcm: seq<i16>, src: u16, dst: u16, n: nat, f: nat, c: nat)
    requires src > 0 && n <= |pcm| / src && f < n && c < dst
    ensures f * dst + c < n * dst
    ensures AdaptedFrames(pcm, src, dst, n)[f * dst + c] == AdaptedSample(pcm, src, dst, f, c)
  {
    assert n * dst == (n - 1) * dst + dst;
    if f < n - 1 {
      AdaptedAt(pcm, src, dst, n - 1, f, c);
    }
  }

  lemma {:induction false} SumOfEqual(pcm: seq<i16>, start: nat, n: nat, s: i16)
    requires start + n <= |pcm| && forall k :: start <= k < start + n ==> pcm[k] == s
    ensures SumFrom(pcm, start, n) == s * n
  {
    if n == 0 {
    } else {
      SumOfEqual(pcm, start, n - 1, s);
      assert s * n == s * (n - 1) + s;
    }
  }

  /** Expanding mono to any number of channels and averaging back changes nothing. */
  lemma MonoRoundTrip(pcm: seq<i16>, n: u16)
    requires n > 0
    ensures Adapt(Adapt(pcm, 1, n), n, 1) == pcm
  {
    if pcm != [] && n > 1 {
      var wide := Adapt(pcm, 1, n);
      Resampler.ExactQuotient(|pcm|, n);
      Resampler.MulLe(1, |pcm|, n);
      var mono := Adapt(wide, n, 1);
      assert |mono| == |pcm|;
      forall f | 0 <= f < |pcm| ensures mono[f] == pcm[f] {
        AdaptedAt(wide, n, 1, |pcm|, f, 0);
        FrameInRange(|wide|, n, f);
        forall k | f * n <= k < f * n + n ensures wide[k] == pcm[f] {
          AdaptedAt(pcm, 1, n, |pcm|, f, k - f * n);
        }
        SumOfEqual(wide, f * n, n, pcm[f]);
        AverageOfEqual(pcm[f], n);
      }
    }
  }

  /** Widening keeps the channels there are and adds silent ones; narrowing back keeps them too. */
  lemma WidenAndNarrow(pcm: seq<i16>, src: u16, dst: u16)
    requires 2 <= src < dst && |pcm| % src == 0
    ensures Adapt(Adapt(pcm, src, dst), dst, src) == pcm
    ensures forall f, c {:trigger AdaptedSample(pcm, src, dst, f, c)} ::
              0 <= f < |pcm| / src && src <= c < dst ==> AdaptedSample(pcm, src, dst, f, c) == 0
  {
    hide AdaptedFrames;
    if pcm != [] {
      var frames := |pcm| / src;
      var wide := AdaptedFrames(pcm, src, dst, frames);
      Resampler.QuotientBelow(|pcm|, src, |pcm| + 1);
      Resampler.ExactQuotient(frames, dst);
      Resampler.MulPositive(frames, dst);
      var back := AdaptedFrames(wide, dst, src, frames);
      forall i | 0 <= i < |pcm| ensures back[i] == pcm[i] {
        Resampler.QuotientBelow(i, src, frames);
        var f, c := i / src, i % src;
        AdaptedAt(wide, dst, src, frames, f, c);
        FrameInRange(|wide|, dst, f);
        AdaptedAt(pcm, src, dst, frames, f, c);
      }
      assert |back| == |pcm|;
    }
  }

  lemma AverageOfEqual(s: int, n: nat)
    requires n > 0
    ensures TruncDiv(s * n, n) == s
  {
    if s >= 0 {
      Resampler.ExactQuotient(s, n);
    } else {
      Resampler.ExactQuotient(-s, n);
      assert -(s * n) == (-s) * n;
    }
  }

  // ----- Playback -----

  datatype AudioFrame = AudioFrame(sampleRate: u32, channels: u16, pcm: seq<i16>)

  /** Down to mono, to the device rate, out to the device channels. */
  function PreparePlayback(frame: AudioFrame, deviceRate: u32, deviceChannels: u16): seq<i16> {
    var mono := if frame.channels != 1 then Adapt(frame.pcm, frame.channels, 1) else frame.pcm;
    var resampled := if frame.sampleRate == 0 || frame.sampleRate == deviceRate then mono
                     else Resampler.Resample(mono, frame.sampleRate, deviceRate);
    if deviceChannels == 1 then resampled else Adapt(resampled, 1, deviceChannels)
  }

  /** The output holds exactly the frames the device will play, on every channel; a frame in the
      device's own format passes through. */
  lemma PlaybackLength(frame: AudioFrame, deviceRate: u32, deviceChannels: u16)
    ensures var mono := if frame.channels == 0 then 0 else |frame.pcm| / frame.channels;
            var frames := if frame.sampleRate == 0 || frame.sampleRate == deviceRate then mono
                          else mono * deviceRate / frame.sampleRate;
            |PreparePlayback(frame, deviceRate, deviceChannels)| == frames * deviceChannels
    ensures frame.channels == deviceChannels == 1 && frame.sampleRate == deviceRate ==>
              PreparePlayback(frame, deviceRate, deviceChannels) == frame.pcm
  {
    hide AdaptedFrames;
    var mono := if frame.channels != 1 then Adapt(frame.pcm, frame.channels, 1) else frame.pcm;
    assert |mono| == if frame.channels == 0 then 0 else |frame.pcm| / frame.channels;
    if deviceRate == 0 { assert |mono| * deviceRate == 0; }
  }

  // ----- Framing -----

  function Frames(samples: seq<i16>, frame: nat): seq<seq<i16>>
    decreases |samples|
  {
    if frame == 0 || |samples| < frame then [] else [samples[..frame]] + Frames(samples[frame..], frame)
  }

  function Remainder(samples: seq<i16>, frame: nat): seq<i16>
    decreases |samples|
  {
    if frame == 0 || |samples| < frame then samples else Remainder(samples[frame..], frame)
  }

  function Concat(frames: seq<seq<i16>>): seq<i16> {
    if frames == [] then [] else frames[0] + Concat(frames[1..])
  }

  lemma {:induction false} ConcatAppend(frames: seq<seq<i16>>, more: seq<i16>)
    ensures Concat(frames + [more]) == Concat(frames) + more
  {
    if frames == [] {
      assert [more][1..] == [] && Concat([more]) == more + [];
    } else {
      ConcatAppend(frames[1..], more);
      assert (frames + [more])[1..] == frames[1..] + [more];
    }
  }

  /** The capture buffer of the voice worker. */
  class CaptureBuffer {
    var samples: seq<i16>

    constructor ()
      ensures samples == []
    {
      samples := [];
    }

    method Extend(more: seq<i16>)
      modifies this
      ensures samples == old(samples) + more
    {
      samples := samples + more;
    }

    /** Takes whole frames off the front and leaves the rest. */
    method DrainFrames(frame: nat) returns (out: seq<seq<i16>>)
      modifies this
      ensures out == Frames(old(samples), frame)
      ensures samples == Remainder(old(samples), frame)
    {
      if frame == 0 || |samples| < frame {
        return [];
      }
      out := [];
      while |samples| >= frame
        invariant Frames(old(samples), frame) == out + Frames(samples, frame)
        invariant Remainder(old(samples), frame) == Remainder(samples, frame)
        decreases |samples|
      {
        assert out + Frames(samples, frame) == out + [samples[..frame]] + Frames(samples[frame..], frame);
        out := out + [samples[..frame]];
        samples := samples[frame..];
      }
    }

    /** One turn of the capture path: all chunks that have come are appended, then framed. */
    method Capture(chunks: seq<seq<i16>>, frame: nat) returns (out: seq<seq<i16>>)
      modifies this
      ensures out == Frames(old(samples) + Concat(chunks), frame)
      ensures samples == Remainder(old(samples) + Concat(chunks), frame)
    {
      for i := 0 to |chunks|
        invariant samples == old(samples) + Concat(chunks[..i])
      {
        ConcatAppend(chunks[..i], chunks[i]);
        assert chunks[..i + 1] == chunks[..i] + [chunks[i]];
        Extend(chunks[i]);
      }
      assert chunks[..|chunks|] == chunks;
      out := DrainFrames(frame);
    }
  }

  /** Nothing is lost or reordered, every frame is full, and less than a frame stays behind. */
  lemma {:induction false} FramesPartition(samples: seq<i16>, frame: nat)
    ensures Concat(Frames(samples, frame)) + Remainder(samples, frame) == samples
    ensures forall i :: 0 <= i < |Frames(samples, frame)| ==> |Frames(samples, frame)[i]| == frame
    ensures frame > 0 ==> |Remainder(samples, frame)| < frame
    decreases |samples|
  {
    if frame == 0 || |samples| < frame {
      assert [] + samples == samples;
    } else {
      FramesPartition(samples[frame..], frame);
      var rest := Frames(samples[frame..], frame);
      assert Frames(samples, frame)[1..] == rest;
      assert samples == samples[..frame] + samples[frame..];
    }
  }

  /** How the capture is cut into chunks does not matter: framing after each chunk gives the
      frames of the whole. */
  lemma {:induction false} ChunksDoNotMatter(first: seq<i16>, second: seq<i16>, frame: nat)
    ensures Frames(first + second, frame) == Frames(first, frame) + Frames(Remainder(first, frame) + second, frame)
    ensures Remainder(first + second, frame) == Remainder(Remainder(first, frame) + second, frame)
    decreases |first|
  {
    if frame == 0 || |first| < frame {
      assert Remainder(first, frame) == first;
    } else {
      ChunksDoNotMatter(first[frame..], second, frame);
      var both := first + second;
      assert both[..frame] == first[..frame] && both[frame..] == first[frame..] + second;
    }
  }

  // ----- What is heard -----

  function Sum(frame: seq<i16>): int {
    if frame == [] then 0 else frame[0] + Sum(frame[1..])
  }

  lemma {:induction false} SumSnoc(frame: seq<i16>, x: i16)
    ensures Sum(frame + [x]) == Sum(frame) + x
  {
    if frame == [] {
      assert [x][1..] == [];
    } else {
      SumSnoc(frame[1..], x);
      assert (frame + [x])[1..] == frame[1..] + [x];
    }
  }

  lemma {:induction false} SumFromIsSum(pcm: seq<i16>, start: nat, n: nat)
    requires start + n <= |pcm|
    ensures SumFrom(pcm, start, n) == Sum(pcm[start..start + n])
  {
    if n == 0 {
    } else {
      SumFromIsSum(pcm, start, n - 1);
      SumSnoc(pcm[start..start + n - 1], pcm[start + n - 1]);
      assert pcm[start..start + n] == pcm[start..start + n - 1] + [pcm[start + n - 1]];
    }
  }

  /** Down to mono every output sample is the mean of its frame's channels, rounded toward zero. */
  lemma MonoIsMean(pcm: seq<i16>, src: u16, f: nat)
    requires src > 1 && f < |pcm| / src
    ensures f * src + src <= |pcm| && f < |Adapt(pcm, src, 1)| == |pcm| / src
    ensures var mean, sum := Adapt(pcm, src, 1)[f], Sum(pcm[f * src..f * src + src]);
            && sum - mean * src < src && mean * src - sum < src
            && (sum >= 0 ==> 0 <= mean * src <= sum)
            && (sum <= 0 ==> sum <= mean * src <= 0)
  {
    hide AdaptedFrames;
    FrameInRange(|pcm|, src, f);
    AdaptedAt(pcm, src, 1, |pcm| / src, f, 0);
    SumFromIsSum(pcm, f * src, src);
    MeanOfSum(pcm, src, f);
  }

  lemma MeanOfSum(pcm: seq<i16>, src: u16, f: nat)
    requires src > 1 && f < |pcm| / src && f * src + src <= |pcm|
    ensures var mean, sum := AdaptedSample(pcm, src, 1, f, 0), SumFrom(pcm, f * src, src);
            && sum - mean * src < src && mean * src - sum < src
            && (sum >= 0 ==> 0 <= mean * src <= sum)
            && (sum <= 0 ==> sum <= mean * src <= 0)
  {
    hide TruncDiv, SumFrom;
    Resampler.TruncDivBounds(SumFrom(pcm, f * src, src), src);
  }

  /** Every channel of the device plays the same: the channels of the input mixed down first and
      resampled then, at their own rate if the input does not name one. */
  lemma PlaybackSamples(frame: AudioFrame, deviceRate: u32, deviceChannels: u16, f: nat, c: nat)
    requires deviceChannels > 0 && c < deviceChannels
    ensures var mono := if frame.channels == 1 then frame.pcm else Adapt(frame.pcm, frame.channels, 1);
            var played := if frame.sampleRate == 0 then mono
                          else Resampler.Resample(mono, frame.sampleRate, deviceRate);
            var out := PreparePlayback(frame, deviceRate, deviceChannels);
            (deviceRate > 0 || frame.sampleRate == 0) && f < |played| ==>
              f * deviceChannels + c < |out| == |played| * deviceChannels
              && out[f * deviceChannels + c] == played[f]
  {
    hide AdaptedFrames;
    var mono := if frame.channels == 1 then frame.pcm else Adapt(frame.pcm, frame.channels, 1);
    var played := if frame.sampleRate == 0 then mono else Resampler.Resample(mono, frame.sampleRate, deviceRate);
    if (deviceRate > 0 || frame.sampleRate == 0) && f < |played| {
      assert f * deviceChannels + c < |played| * deviceChannels by {
        Resampler.MulLe(f + 1, |played|, deviceChannels);
        assert (f + 1) * deviceChannels == f * deviceChannels + deviceChannels;
      }
      if deviceChannels > 1 {
        ExpandedAt(played, deviceChannels, f, c);
      }
    }
  }

  lemma ExpandedAt(mono: seq<i16>, channels: u16, f: nat, c: nat)
    requires channels > 1 && c < channels && f < |mono|
    ensures |Adapt(mono, 1, channels)| == |mono| * channels && f * channels + c < |mono| * channels
    ensures Adapt(mono, 1, channels)[f * channels + c] == mono[f]
  {
    hide AdaptedFrames;
    AdaptedAt(mono, 1, channels, |mono|, f, c);
  }

  /** Between layouts of two or more channels the common channels are copied in place and the others
      are silent. */
  lemma ChannelsAreCopied(pcm: seq<i16>, src: u16, dst: u16, f: nat, c: nat)
    requires src > 1 && dst > 1 && src != dst && f < |pcm| / src && c < dst
    ensures f * src + src <= |pcm| && |Adapt(pcm, src, dst)| == |pcm| / src * dst
    ensures f * dst + c < |Adapt(pcm, src, dst)|
    ensures Adapt(pcm, src, dst)[f * dst + c] == if c < src then pcm[f * src + c] else 0
  {
    hide AdaptedFrames;
    FrameInRange(|pcm|, src, f);
    AdaptedAt(pcm, src, dst, |pcm| / src, f, c);
  }
}
