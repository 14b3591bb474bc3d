/**
  The streaming linear resampler.

  `Resample` is the reference: a function of the whole input stream. The class keeps only the last
  input frame and a fractional position, and is proved to produce exactly what `Resample` gives for
  everything accepted so far, however the input was split into calls.
  Interpolation is a parameter `blend(current, next, fraction, outputRate)`, so every equality holds
  bit for bit for the original's f32 arithmetic.
*/
module Resampler {
  import opened Prelude
  import opened Arithmetic
  import opened ResampleMath

  const INTERPOLATION_MARGIN_FRAMES: nat := 2

  datatype Config = Config(inputRate: nat, outputRate: nat, channels: nat)

  datatype Error =
    | InvalidConfig(config: Config)
    | InvalidOutputFrameSize(outputFrames: nat)
    | IncompleteFrame(samples: nat, channels: nat)
    | CapacityOverflow

  datatype Outcome = Done | Failed(error: Error)

  type Blend<!T> = (T, T, nat, nat) -> T

  predicate ValidConfig(c: Config) {
    c.inputRate > 0 && c.outputRate > 0 && c.channels > 0
  }

  // ---------------------------------------------------------------------------------------------
  // Reference: the resampling of a whole stream

  lemma FrameIndexInRange(len: nat, channels: nat, frame: nat, channel: nat)
    requires channels > 0 && frame < len / channels && channel < channels
    ensures 0 <= frame * channels + channel < len
  {
    DivBounds(len, channels);
    MulStrict(frame, len / channels, channels);
  }

  /** One channel of output frame `k`: the blend of the two input frames around its position. */
  ghost function OutputSample<T>(c: Config, blend: Blend<T>, input: seq<T>, k: nat, channel: nat): T
    requires ValidConfig(c) && channel < c.channels
    requires Available(c.inputRate, c.outputRate, |input| / c.channels, k)
  {
    var frame := k * c.inputRate / c.outputRate;
    var fraction := k * c.inputRate % c.outputRate;
    var next := if fraction != 0 then frame + 1 else frame;
    FrameIndexInRange(|input|, c.channels, frame, channel);
    FrameIndexInRange(|input|, c.channels, next, channel);
    blend(input[frame * c.channels + channel], input[next * c.channels + channel], fraction, c.outputRate)
  }

  ghost function OutputFrame<T>(c: Config, blend: Blend<T>, input: seq<T>, k: nat): (frame: seq<T>)
    requires ValidConfig(c)
    requires Available(c.inputRate, c.outputRate, |input| / c.channels, k)
    ensures |frame| == c.channels
  {
    seq(c.channels, channel requires 0 <= channel < c.channels => OutputSample(c, blend, input, k, channel))
  }

  ghost function Emitted<T>(c: Config, input: seq<T>): nat
    requires ValidConfig(c)
  {
    EmittedFrames(c.inputRate, c.outputRate, |input| / c.channels)
  }

  /** The first `k` output frames, one after the other. */
  ghost function Frames<T>(c: Config, blend: Blend<T>, input: seq<T>, k: nat): seq<T>
    requires ValidConfig(c) && k <= Emitted(c, input)
  {
    if k == 0 then [] else
      AvailableIffEmitted(c.inputRate, c.outputRate, |input| / c.channels, k - 1);
      Frames(c, blend, input, k - 1) + OutputFrame(c, blend, input, k - 1)
  }

  /** Everything a stream determines. */
  ghost function Resample<T>(c: Config, blend: Blend<T>, input: seq<T>): seq<T>
    requires ValidConfig(c)
  {
    Frames(c, blend, input, Emitted(c, input))
  }

  lemma {:induction false} FramesLength<T>(c: Config, blend: Blend<T>, input: seq<T>, k: nat)
    requires ValidConfig(c) && k <= Emitted(c, input)
    ensures |Frames(c, blend, input, k)| == k * c.channels
  {
    if k > 0 {
      FramesLength(c, blend, input, k - 1);
      AvailableIffEmitted(c.inputRate, c.outputRate, |input| / c.channels, k - 1);
      assert (k - 1) * c.channels + c.channels == k * c.channels;
    }
  }

  /** A stream of n frames resamples to floor((n - 1) * outputRate / inputRate) + 1 frames, each of
      which holds the blend at its own position. */
  lemma {:induction false} FrameAt<T>(c: Config, blend: Blend<T>, input: seq<T>, k: nat, m: nat, channel: nat)
    requires ValidConfig(c) && k < m <= Emitted(c, input) && channel < c.channels
    ensures Available(c.inputRate, c.outputRate, |input| / c.channels, k)
    ensures 0 <= k * c.channels + channel < |Frames(c, blend, input, m)|
    ensures Frames(c, blend, input, m)[k * c.channels + channel] == OutputSample(c, blend, input, k, channel)
  {
    AvailableIffEmitted(c.inputRate, c.outputRate, |input| / c.channels, k);
    AvailableIffEmitted(c.inputRate, c.outputRate, |input| / c.channels, m - 1);
    FramesLength(c, blend, input, m - 1);
    FramesLength(c, blend, input, m);
    var before := Frames(c, blend, input, m - 1);
    if k < m - 1 {
      FrameAt(c, blend, input, k, m - 1, channel);
    } else {
      assert k * c.channels == |before|;
      assert (before + OutputFrame(c, blend, input, k))[|before| + channel] == OutputFrame(c, blend, input, k)[channel];
    }
  }

  /** Later input never changes a frame that was already determined. */
  lemma {:induction false} FramesStable<T>(c: Config, blend: Blend<T>, input: seq<T>, more: seq<T>, k: nat)
    requires ValidConfig(c) && k <= Emitted(c, input)
    ensures k <= Emitted(c, input + more)
    ensures Frames(c, blend, input + more, k) == Frames(c, blend, input, k)
  {
    EmittedGrows(c, input, more);
    if k > 0 {
      FramesStable(c, blend, input, more, k - 1);
      FrameStable(c, blend, input, more, k - 1);
      FramesStep(c, blend, input, k);
      FramesStep(c, blend, input + more, k);
    }
  }

  lemma EmittedGrows<T>(c: Config, input: seq<T>, more: seq<T>)
    requires ValidConfig(c)
    ensures Emitted(c, input) <= Emitted(c, input + more)
  {
    DivMonotone(|input|, |input + more|, c.channels);
    EmittedMonotone(c.inputRate, c.outputRate, |input| / c.channels, |input + more| / c.channels);
  }

  lemma FramesStep<T>(c: Config, blend: Blend<T>, input: seq<T>, k: nat)
    requires ValidConfig(c) && 0 < k <= Emitted(c, input)
    ensures Available(c.inputRate, c.outputRate, |input| / c.channels, k - 1)
    ensures Frames(c, blend, input, k) == Frames(c, blend, input, k - 1) + OutputFrame(c, blend, input, k - 1)
  {
    AvailableIffEmitted(c.inputRate, c.outputRate, |input| / c.channels, k - 1);
  }

  lemma SampleStable<T>(c: Config, blend: Blend<T>, input: seq<T>, more: seq<T>, k: nat, channel: nat)
    requires ValidConfig(c) && channel < c.channels
    requires Available(c.inputRate, c.outputRate, |input| / c.channels, k)
    requires Available(c.inputRate, c.outputRate, |input + more| / c.channels, k)
    ensures OutputSample(c, blend, input + more, k, channel) == OutputSample(c, blend, input, k, channel)
  {
    var frame := k * c.inputRate / c.outputRate;
    FrameIndexInRange(|input|, c.channels, frame, channel);
    if k * c.inputRate % c.outputRate != 0 {
      FrameIndexInRange(|input|, c.channels, frame + 1, channel);
    }
  }

  lemma FrameStable<T>(c: Config, blend: Blend<T>, input: seq<T>, more: seq<T>, k: nat)
    requires ValidConfig(c) && k < Emitted(c, input) <= Emitted(c, input + more)
    ensures Available(c.inputRate, c.outputRate, |input| / c.channels, k)
    ensures Available(c.inputRate, c.outputRate, |input + more| / c.channels, k)
    ensures OutputFrame(c, blend, input + more, k) == OutputFrame(c, blend, input, k)
  {
    AvailableIffEmitted(c.inputRate, c.outputRate, |input| / c.channels, k);
    AvailableIffEmitted(c.inputRate, c.outputRate, |input + more| / c.channels, k);
    var x, y := OutputFrame(c, blend, input + more, k), OutputFrame(c, blend, input, k);
    forall channel: nat | channel < c.channels
      ensures x[channel] == y[channel]
    {
      SampleStable(c, blend, input, more, k, channel);
      assert x[channel] == OutputSample(c, blend, input + more, k, channel);
    }
    assert x == y;
  }

  /** What was resampled stays a prefix of what will be. */
  lemma ResampleGrows<T>(c: Config, blend: Blend<T>, input: seq<T>, more: seq<T>)
    requires ValidConfig(c)
    ensures Resample(c, blend, input) <= Resample(c, blend, input + more)
  {
    FramesStable(c, blend, input, more, Emitted(c, input));
    FramesArePrefix(c, blend, input + more, Emitted(c, input), Emitted(c, input + more));
  }

  lemma {:induction false} FramesArePrefix<T>(c: Config, blend: Blend<T>, input: seq<T>, k: nat, m: nat)
    requires ValidConfig(c) && k <= m <= Emitted(c, input)
    ensures Frames(c, blend, input, k) <= Frames(c, blend, input, m)
    decreases m
  {
    if k < m {
      FramesArePrefix(c, blend, input, k, m - 1);
    }
  }

  /** At equal rates every position is whole, so a stream resamples to itself. */
  lemma SameRateIsIdentity<T(!new)>(c: Config, blend: Blend<T>, input: seq<T>)
    requires ValidConfig(c) && c.inputRate == c.outputRate && |input| % c.channels == 0
    requires forall sample :: blend(sample, sample, 0, c.outputRate) == sample
    ensures Resample(c, blend, input) == input
  {
    var n := |input| / c.channels;
    DivBounds(|input|, c.channels);
    if n > 0 {
      DivIs((n - 1) * c.outputRate, c.inputRate, n - 1);
    }
    FramesLength(c, blend, input, n);
    forall i | 0 <= i < |input|
      ensures Resample(c, blend, input)[i] == input[i]
    {
      SameRateSample(c, blend, input, n, i);
    }
  }

  lemma SameRateSample<T(!new)>(c: Config, blend: Blend<T>, input: seq<T>, n: nat, i: nat)
    requires ValidConfig(c) && c.inputRate == c.outputRate && |input| == n * c.channels
    requires forall sample :: blend(sample, sample, 0, c.outputRate) == sample
    requires n == Emitted(c, input) && i < |input| && |Frames(c, blend, input, n)| == |input|
    ensures Frames(c, blend, input, n)[i] == input[i]
  {
    var k, channel := i / c.channels, i % c.channels;
    DivBounds(i, c.channels);
    if k >= n {
      MulMonotone(n, k, c.channels);
      assert false;
    }
    FrameAt(c, blend, input, k, n, channel);
    DivIs(k * c.inputRate, c.outputRate, k);
  }

  /** One more frame extends whatever was written since `first`. */
  lemma NextFrame<T>(c: Config, blend: Blend<T>, input: seq<T>, k: nat, first: seq<T>)
    requires ValidConfig(c) && k < Emitted(c, input) && first <= Frames(c, blend, input, k)
    requires Available(c.inputRate, c.outputRate, |input| / c.channels, k)
    ensures first <= Frames(c, blend, input, k + 1)
    ensures Frames(c, blend, input, k + 1)[|first|..] == Frames(c, blend, input, k)[|first|..] + OutputFrame(c, blend, input, k)
  {
    var before, frame := Frames(c, blend, input, k), OutputFrame(c, blend, input, k);
    assert Frames(c, blend, input, k + 1) == before + frame;
    assert (before + frame)[|first|..] == before[|first|..] + frame;
  }

  // ---------------------------------------------------------------------------------------------
  // Buffers

  /** `Vec::reserve`: the allocation stays when the room is there, else it grows to what is needed or more. */
  predicate ReservedTo(capacity: nat, length: nat, additional: nat, capacity': nat) {
    if length + additional <= capacity then capacity' == capacity else capacity' >= length + additional
  }

  method Reserve(capacity: nat, length: nat, additional: nat) returns (capacity': nat)
    ensures ReservedTo(capacity, length, additional, capacity')
  {
    var needed := length + additional;
    capacity' := if needed <= capacity then capacity else if needed < 2 * capacity then 2 * capacity else needed;
  }

  /** `output_capacity`: samples reserved for one call, or nothing when a checked operation overflows. */
  function OutputCapacity(c: Config, inputSamples: nat): nat
    requires ValidConfig(c)
  {
    (ScaledFrames(c, inputSamples) + INTERPOLATION_MARGIN_FRAMES) * c.channels
  }

  function ScaledFrames(c: Config, inputSamples: nat): nat
    requires ValidConfig(c)
  {
    MulMonotone(0, inputSamples / c.channels, c.outputRate);
    inputSamples / c.channels * c.outputRate / c.inputRate
  }

  /** The three checked operations of `output_capacity` stay within a machine word. */
  predicate CapacityFits(c: Config, inputSamples: nat)
    requires ValidConfig(c)
  {
    && inputSamples / c.channels * c.outputRate <= USIZE_MAX
    && inputSamples / c.channels * c.outputRate / c.inputRate + INTERPOLATION_MARGIN_FRAMES <= USIZE_MAX
    && OutputCapacity(c, inputSamples) <= USIZE_MAX
  }

  /** A call is accepted exactly when its scaled frames and its reservation can be computed. */
  lemma CapacityFitsIff(c: Config, inputSamples: nat)
    requires ValidConfig(c)
    ensures CapacityFits(c, inputSamples) <==>
            inputSamples / c.channels * c.outputRate <= USIZE_MAX && OutputCapacity(c, inputSamples) <= USIZE_MAX
  {
    var frames := ScaledFrames(c, inputSamples) + INTERPOLATION_MARGIN_FRAMES;
    MulMonotone(1, c.channels, frames);
    assert c.channels * frames == frames * c.channels;
  }

  lemma WholeFramesAdd(a: nat, b: nat, channels: nat)
    requires channels > 0 && a % channels == 0 && b % channels == 0
    ensures (a + b) % channels == 0
    ensures (a + b) / channels == a / channels + b / channels
  {
    DivBounds(a, channels);
    DivBounds(b, channels);
    assert (a / channels + b / channels) * channels == (a / channels) * channels + (b / channels) * channels;
    DivIs(a + b, channels, a / channels + b / channels);
  }

  lemma DropSlice<T>(stream: seq<T>, channels: nat, dropped: nat, consumed: nat)
    requires channels > 0 && |stream| % channels == 0 && dropped + consumed <= |stream| / channels
    ensures 0 <= dropped * channels <= |stream|
    ensures 0 <= consumed * channels <= |stream[dropped * channels..]|
    ensures 0 <= (dropped + consumed) * channels <= |stream|
    ensures stream[dropped * channels..][consumed * channels..] == stream[(dropped + consumed) * channels..]
  {
    DivBounds(|stream|, channels);
    MulMonotone(dropped + consumed, |stream| / channels, channels);
    MulAdd(dropped, consumed, channels);
  }

  /** A call's output fits what `output_capacity` reserves for it. */
  lemma GrowthFitsCapacity<T>(c: Config, blend: Blend<T>, input: seq<T>, more: seq<T>)
    requires ValidConfig(c) && |input| % c.channels == 0 && |more| % c.channels == 0
    ensures |Resample(c, blend, input + more)| - |Resample(c, blend, input)| <= OutputCapacity(c, |more|)
  {
    var k, k' := Emitted(c, input), Emitted(c, input + more);
    WholeFramesAdd(|input|, |more|, c.channels);
    FramesLength(c, blend, input, k);
    FramesLength(c, blend, input + more, k');
    EmittedGrowth(c.inputRate, c.outputRate, |input| / c.channels, |more| / c.channels);
    MulDifference(k', k, |more| / c.channels * c.outputRate / c.inputRate + INTERPOLATION_MARGIN_FRAMES, c.channels);
  }

  // ---------------------------------------------------------------------------------------------
  // The streaming backend

  class StreamingLinearResampler<T> {
    const config: Config
    const blend: Blend<T>
    var buffered: seq<T>
    var bufferedCapacity: nat
    var nextPosition: nat
    ghost var accepted: seq<T>  // every sample of every call that succeeded
    ghost var dropped: nat      // input frames already discarded
    ghost var emitted: nat      // output frames already written

    /** The fields describe frame `emitted` of the accepted stream, seen from frame `dropped`. */
    ghost predicate Aligned()
      reads this
    {
      && ValidConfig(config)
      && |accepted| % config.channels == 0
      && 0 <= dropped * config.channels <= |accepted|
      && buffered == accepted[dropped * config.channels..]
      && nextPosition == emitted * config.inputRate - dropped * config.outputRate
    }

    /** Between calls everything that can be written has been, and every consumed frame is gone. */
    ghost predicate Valid()
      reads this
    {
      && Aligned()
      && |buffered| <= bufferedCapacity
      && emitted == Emitted(config, accepted)
      && dropped == DroppedFrames(config.inputRate, config.outputRate, |accepted| / config.channels)
    }

    ghost function Output(): seq<T>
      requires ValidConfig(config)
      reads this
    {
      Resample(config, blend, accepted)
    }

    constructor (config: Config, blend: Blend<T>, inputFrames: nat)
      requires ValidConfig(config)
      ensures Valid() && accepted == [] && this.config == config && this.blend == blend
      ensures bufferedCapacity >= (inputFrames + INTERPOLATION_MARGIN_FRAMES) * config.channels
    {
      this.config, this.blend := config, blend;
      buffered, nextPosition := [], 0;
      var reserved := Reserve(0, 0, (inputFrames + INTERPOLATION_MARGIN_FRAMES) * config.channels);
      bufferedCapacity := reserved;
      accepted, dropped, emitted := [], 0, 0;
    }

    lemma RetainsAtMostOneFrame()
      requires Valid()
      ensures |buffered| <= config.channels
      ensures nextPosition < config.inputRate || nextPosition < config.outputRate
    {
      var n := |accepted| / config.channels;
      RetainedState(config.inputRate, config.outputRate, n);
      DivBounds(|accepted|, config.channels);
      MulMonotone(n, dropped + 1, config.channels);
      assert (dropped + 1) * config.channels == dropped * config.channels + config.channels;
    }

    lemma BufferedSample(frame: nat, channel: nat)
      requires Aligned() && dropped <= frame < |accepted| / config.channels && channel < config.channels
      ensures frame - dropped < |buffered| / config.channels
      ensures 0 <= (frame - dropped) * config.channels + channel < |buffered|
      ensures 0 <= frame * config.channels + channel < |accepted|
      ensures buffered[(frame - dropped) * config.channels + channel] == accepted[frame * config.channels + channel]
    {
      FrameIndexInRange(|accepted|, config.channels, frame, channel);
      assert (frame - dropped) * config.channels == frame * config.channels - dropped * config.channels;
      FramesBuffered();
      MulMonotone(dropped, frame, config.channels);
    }

    lemma FramesBuffered()
      requires Aligned()
      ensures |buffered| / config.channels == |accepted| / config.channels - dropped
    {
      DivShift(|accepted|, config.channels, dropped);
    }

    /** Writes output frame `emitted` when its neighbours are buffered. */
    method WriteNextFrame(output: seq<T>) returns (wrote: bool, output': seq<T>)
      requires Aligned()
      ensures wrote <==> Available(config.inputRate, config.outputRate, |accepted| / config.channels, emitted)
      ensures wrote ==> output' == output + OutputFrame(config, blend, accepted, emitted)
      ensures !wrote ==> output' == output
    {
      var frameCount := |buffered| / config.channels;
      var frame := nextPosition / config.outputRate;
      var fraction := nextPosition % config.outputRate;
      DivShift(emitted * config.inputRate, config.outputRate, dropped);
      FramesBuffered();
      if frame >= frameCount || (fraction != 0 && frame + 1 >= frameCount) {
        return false, output;
      }
      output' := PushFrame(frame, fraction, output);
      wrote := true;
    }

    /** The loop over the channels of one output frame. */
    method PushFrame(frame: nat, fraction: nat, output: seq<T>) returns (output': seq<T>)
      requires Aligned() && Available(config.inputRate, config.outputRate, |accepted| / config.channels, emitted)
      requires frame + dropped == emitted * config.inputRate / config.outputRate
      requires fraction == emitted * config.inputRate % config.outputRate
      ensures output' == output + OutputFrame(config, blend, accepted, emitted)
    {
      output' := output;
      ghost var whole := OutputFrame(config, blend, accepted, emitted);
      for channel := 0 to config.channels
        invariant output' == output + whole[..channel]
      {
        BufferedSample(frame + dropped, channel);
        var nextFrame := if fraction != 0 then frame + 1 else frame;
        BufferedSample(nextFrame + dropped, channel);
        var current := buffered[frame * config.channels + channel];
        var next := buffered[nextFrame * config.channels + channel];
        output' := output' + [blend(current, next, fraction, config.outputRate)];
        assert whole[..channel + 1] == whole[..channel] + [whole[channel]];
      }
      assert whole[..config.channels] == whole;
    }

    method DiscardConsumedFrames()
      requires Aligned() && emitted == Emitted(config, accepted)
      requires DroppedFrames(config.inputRate, config.outputRate, |accepted| / config.channels) >= dropped
      requires |buffered| <= bufferedCapacity
      modifies `buffered, `nextPosition, `dropped
      ensures Valid()
    {
      var availableFrames := |buffered| / config.channels;
      var whole := nextPosition / config.outputRate;
      var consumed := if whole < availableFrames then whole else availableFrames;
      FramesBuffered();
      ConsumedIsDropped(|accepted| / config.channels, whole, consumed);
      DropSlice(accepted, config.channels, dropped, consumed);
      buffered := buffered[consumed * config.channels..];
      nextPosition := nextPosition - consumed * config.outputRate;
      dropped := dropped + consumed;
    }

    lemma ConsumedIsDropped(n: nat, whole: nat, consumed: nat)
      requires ValidConfig(config) && dropped <= DroppedFrames(config.inputRate, config.outputRate, n)
      requires emitted == EmittedFrames(config.inputRate, config.outputRate, n)
      requires nextPosition == emitted * config.inputRate - dropped * config.outputRate
      requires whole == nextPosition / config.outputRate
      requires consumed == if whole < n - dropped then whole else n - dropped
      ensures dropped + consumed == DroppedFrames(config.inputRate, config.outputRate, n)
      ensures 0 <= nextPosition - consumed * config.outputRate
      ensures nextPosition - consumed * config.outputRate == emitted * config.inputRate - (dropped + consumed) * config.outputRate
    {
      var position := emitted * config.inputRate;
      DivShift(position, config.outputRate, dropped);
      assert whole == position / config.outputRate - dropped;
      assert dropped + consumed == DroppedFrames(config.inputRate, config.outputRate, n);
      RetainedState(config.inputRate, config.outputRate, n);
      MulAdd(dropped, consumed, config.outputRate);
    }

    /** One call. `output` grows by exactly what the whole stream determines and did not before. */
    method ProcessInto(input: seq<T>, output: seq<T>, outputCapacity: nat)
      returns (r: Outcome, output': seq<T>, outputCapacity': nat)
      requires Valid()
      modifies this
      ensures Valid()
      ensures r == if |input| % config.channels != 0 then Failed(IncompleteFrame(|input|, config.channels))
                   else if !CapacityFits(config, |input|) then Failed(CapacityOverflow)
                   else Done
      ensures r.Failed? ==> unchanged(this) && output' == output && outputCapacity' == outputCapacity
      ensures r.Done? ==> accepted == old(accepted) + input
      ensures r.Done? ==> old(Output()) <= Output() && output' == output + Output()[|old(Output())|..]
      ensures r.Done? ==> |output'| <= |output| + OutputCapacity(config, |input|)
      ensures r.Done? ==> ReservedTo(outputCapacity, |output|, OutputCapacity(config, |input|), outputCapacity')
      ensures r.Done? ==> ReservedTo(old(bufferedCapacity), old(|buffered|), |input|, bufferedCapacity)
    {
      output', outputCapacity' := output, outputCapacity;
      if |input| % config.channels != 0 {
        return Failed(IncompleteFrame(|input|, config.channels)), output', outputCapacity';
      }
      if !CapacityFits(config, |input|) {
        return Failed(CapacityOverflow), output', outputCapacity';
      }
      outputCapacity' := Reserve(outputCapacity, |output|, OutputCapacity(config, |input|));
      GrowthFitsCapacity(config, blend, accepted, input);
      ResampleGrows(config, blend, accepted, input);
      Extend(input);
      output' := WriteAvailable(output');
      DiscardConsumedFrames();
      r := Done;
    }

    method Extend(input: seq<T>)
      requires Valid() && |input| % config.channels == 0
      modifies `buffered, `bufferedCapacity, `accepted
      ensures Aligned() && accepted == old(accepted) + input
      ensures |buffered| <= bufferedCapacity
      ensures ReservedTo(old(bufferedCapacity), old(|buffered|), |input|, bufferedCapacity)
      ensures emitted <= Emitted(config, accepted)
      ensures Frames(config, blend, accepted, emitted) == old(Output())
      ensures dropped <= DroppedFrames(config.inputRate, config.outputRate, |accepted| / config.channels)
    {
      ghost var n := |accepted| / config.channels;
      WholeFramesAdd(|accepted|, |input|, config.channels);
      DroppedMonotone(config.inputRate, config.outputRate, n, n + |input| / config.channels);
      FramesStable(config, blend, accepted, input, emitted);
      var reserved := Reserve(bufferedCapacity, |buffered|, |input|);
      bufferedCapacity := reserved;
      buffered := buffered + input;
      accepted := accepted + input;
    }

    /** The emission loop: stops only when every determined frame is written. */
    method WriteAvailable(output: seq<T>) returns (output': seq<T>)
      requires Aligned() && emitted <= Emitted(config, accepted)
      modifies `nextPosition, `emitted
      ensures Aligned() && emitted == Emitted(config, accepted)
      ensures old(Frames(config, blend, accepted, emitted)) <= Output()
      ensures output' == output + Output()[|old(Frames(config, blend, accepted, emitted))|..]
    {
      output' := output;
      ghost var first := Frames(config, blend, accepted, emitted);
      var more := true;
      while more
        invariant Aligned() && emitted <= Emitted(config, accepted)
        invariant first <= Frames(config, blend, accepted, emitted)
        invariant output' == output + Frames(config, blend, accepted, emitted)[|first|..]
        invariant !more ==> emitted == Emitted(config, accepted)
        decreases Emitted(config, accepted) - emitted, more
      {
        more, output' := WriteAndAdvance(output', output, first);
      }
    }

    /** The loop condition and body: write a frame and move on by one input rate. */
    method WriteAndAdvance(output: seq<T>, ghost start: seq<T>, ghost first: seq<T>) returns (more: bool, output': seq<T>)
      requires Aligned() && emitted <= Emitted(config, accepted)
      requires first <= Frames(config, blend, accepted, emitted)
      requires output == start + Frames(config, blend, accepted, emitted)[|first|..]
      modifies `nextPosition, `emitted
      ensures Aligned() && emitted <= Emitted(config, accepted)
      ensures first <= Frames(config, blend, accepted, emitted)
      ensures output' == start + Frames(config, blend, accepted, emitted)[|first|..]
      ensures more ==> emitted == old(emitted) + 1
      ensures !more ==> emitted == old(emitted) == Emitted(config, accepted)
    {
      AvailableIffEmitted(config.inputRate, config.outputRate, |accepted| / config.channels, emitted);
      more, output' := WriteNextFrame(output);
      if more {
        NextFrame(config, blend, accepted, emitted, first);
        MulSucc(emitted, config.inputRate);
        nextPosition := nextPosition + config.inputRate;
        emitted := emitted + 1;
      }
    }
  }
}
