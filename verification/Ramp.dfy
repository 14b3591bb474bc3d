/**
  What the resampling of a straight line is. Linear interpolation is exact on it, so a stream whose
  channels are ramps resamples to the same ramps at the output rate. That fixes which two frames are
  blended, in which order and with which weight.
*/
module Ramp {
  import opened Arithmetic
  import opened ResampleMath
  import opened Resampler

  /** The interpolation of the original, over the reals. */
  function Linear(current: real, next: real, fraction: nat, rate: nat): real {
    if rate == 0 then current else current + (next - current) * (fraction as real / rate as real)
  }

  datatype Line = Line(slope: real, offset: real) {
    function At(x: real): real {
      slope * x + offset
    }
  }

  /** A sample lies on its channel's line. */
  predicate OnLine(c: Config, lines: seq<Line>, input: seq<real>, frame: nat, channel: nat)
    requires ValidConfig(c) && |lines| == c.channels && channel < c.channels && frame < |input| / c.channels
  {
    FrameIndexInRange(|input|, c.channels, frame, channel);
    input[frame * c.channels + channel] == lines[channel].At(frame as real)
  }

  ghost predicate IsRamp(c: Config, lines: seq<Line>, input: seq<real>) {
    && ValidConfig(c) && |lines| == c.channels
    && forall i: nat, channel: nat | channel < c.channels && i < |input| / c.channels ::
         OnLine(c, lines, input, i, channel)
  }

  /** Between two neighbours a line takes the value the weight says. */
  lemma LineBetween(line: Line, frame: nat, fraction: nat, rate: nat)
    requires rate > 0 && fraction < rate
    ensures Linear(line.At(frame as real), line.At((frame + 1) as real), fraction, rate)
         == line.At((frame * rate + fraction) as real / rate as real)
  {
    var f, w := frame as real, fraction as real / rate as real;
    assert (frame + 1) as real == f + 1.0;
    assert line.At(f + 1.0) - line.At(f) == line.slope;
    Weight(frame, fraction, rate);
    assert line.At(f + w) == line.At(f) + line.slope * w;
  }

  lemma Weight(frame: nat, fraction: nat, rate: nat)
    requires rate > 0
    ensures (frame * rate + fraction) as real / rate as real == frame as real + fraction as real / rate as real
  {
    assert (frame * rate + fraction) as real == frame as real * rate as real + fraction as real;
  }

  lemma WholeFrame(frame: nat, rate: nat)
    requires rate > 0
    ensures (frame * rate) as real / rate as real == frame as real
  {
    Weight(frame, 0, rate);
  }

  /** The blend of a line's values around a position is its value there. */
  lemma BlendOnLine(line: Line, position: nat, rate: nat, current: real, next: real)
    requires rate > 0 && current == line.At((position / rate) as real)
    requires position % rate != 0 ==> next == line.At((position / rate + 1) as real)
    requires position % rate == 0 ==> next == current
    ensures Linear(current, next, position % rate, rate) == line.At(position as real / rate as real)
  {
    var frame, fraction := position / rate, position % rate;
    DivBounds(position, rate);
    if fraction != 0 {
      LineBetween(line, frame, fraction, rate);
    } else {
      WholeFrame(frame, rate);
    }
  }

  /** Sample (k, channel) of a resampled ramp is the ramp's value at input position k * inputRate / outputRate. */
  lemma RampSample(c: Config, lines: seq<Line>, input: seq<real>, k: nat, channel: nat)
    requires IsRamp(c, lines, input) && channel < c.channels
    requires Available(c.inputRate, c.outputRate, |input| / c.channels, k)
    ensures OutputSample(c, Linear, input, k, channel)
         == lines[channel].At((k * c.inputRate) as real / c.outputRate as real)
  {
    var position := k * c.inputRate;
    var frame := position / c.outputRate;
    var next := if position % c.outputRate != 0 then frame + 1 else frame;
    FrameIndexInRange(|input|, c.channels, frame, channel);
    FrameIndexInRange(|input|, c.channels, next, channel);
    assert OnLine(c, lines, input, frame, channel) && OnLine(c, lines, input, next, channel);
    BlendOnLine(lines[channel], position, c.outputRate,
                input[frame * c.channels + channel], input[next * c.channels + channel]);
  }

  /** A ramp stays a ramp: every sample of the output lies on its channel's line. */
  lemma RampStaysRamp(c: Config, lines: seq<Line>, input: seq<real>, k: nat, channel: nat)
    requires IsRamp(c, lines, input) && channel < c.channels && k < Emitted(c, input)
    ensures 0 <= k * c.channels + channel < |Resample(c, Linear, input)|
    ensures Resample(c, Linear, input)[k * c.channels + channel]
         == lines[channel].At((k * c.inputRate) as real / c.outputRate as real)
  {
    FrameAt(c, Linear, input, k, Emitted(c, input), channel);
    RampSample(c, lines, input, k, channel);
  }
}
