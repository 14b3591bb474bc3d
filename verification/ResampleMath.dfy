/**
  Frame arithmetic of the streaming linear resampler.

  Output frame `k` sits at input position `k * inRate / outRate`. It can be written once the input
  frame at or before that position, and the one after it when the position is fractional, are there.
  The lemmas below turn that availability test into the closed form used for whole streams.
*/
module ResampleMath {
  import opened Arithmetic

  /** How many output frames a stream of `n` input frames determines. */
  function EmittedFrames(inRate: nat, outRate: nat, n: nat): nat
    requires inRate > 0
  {
    if n == 0 then 0 else (n - 1) * outRate / inRate + 1
  }

  /** The guard of `write_next_frame`, for output frame `k` over a whole stream of `n` frames. */
  predicate Available(inRate: nat, outRate: nat, n: nat, k: nat)
    requires outRate > 0
  {
    var position := k * inRate;
    && position / outRate < n
    && (position % outRate != 0 ==> position / outRate + 1 < n)
  }

  /** How many input frames have been discarded after a stream of `n` frames was processed. */
  function DroppedFrames(inRate: nat, outRate: nat, n: nat): nat
    requires inRate > 0 && outRate > 0
  {
    var whole := EmittedFrames(inRate, outRate, n) * inRate / outRate;
    if whole < n then whole else n
  }

  /** The availability test says exactly that the position does not pass the last input frame. */
  lemma AvailableIsPosition(inRate: nat, outRate: nat, n: nat, k: nat)
    requires outRate > 0
    ensures Available(inRate, outRate, n, k) <==> n > 0 && k * inRate <= (n - 1) * outRate
  {
    var position := k * inRate;
    var q := position / outRate;
    DivBounds(position, outRate);
    if q < n - 1 {
      MulStrict(q, n - 1, outRate);
    } else if q == n - 1 {
    } else {
      MulStrict(n - 1, q, outRate);
    }
  }

  /** Frame `k` is available after `n` input frames exactly when it is among the first
      floor((n - 1) * outRate / inRate) + 1 output frames. */
  lemma AvailableIffEmitted(inRate: nat, outRate: nat, n: nat, k: nat)
    requires inRate > 0 && outRate > 0
    ensures Available(inRate, outRate, n, k) <==> k < EmittedFrames(inRate, outRate, n)
  {
    AvailableIsPosition(inRate, outRate, n, k);
    if n > 0 {
      LeDiv(k, inRate, (n - 1) * outRate);
    }
  }

  lemma EmittedMonotone(inRate: nat, outRate: nat, n: nat, m: nat)
    requires inRate > 0 && outRate > 0 && n <= m
    ensures EmittedFrames(inRate, outRate, n) <= EmittedFrames(inRate, outRate, m)
  {
    var k := EmittedFrames(inRate, outRate, n);
    if k > 0 {
      AvailableIffEmitted(inRate, outRate, n, k - 1);
      AvailableIffEmitted(inRate, outRate, m, k - 1);
    }
  }

  /** What a call leaves behind: at most one retained frame and a position below the larger rate. */
  lemma RetainedState(inRate: nat, outRate: nat, n: nat)
    requires inRate > 0 && outRate > 0
    ensures var k := EmittedFrames(inRate, outRate, n);
            var b := DroppedFrames(inRate, outRate, n);
            && b <= n <= b + 1
            && 0 <= k * inRate - b * outRate
            && (k * inRate - b * outRate < inRate || k * inRate - b * outRate < outRate)
  {
    var k := EmittedFrames(inRate, outRate, n);
    var b := DroppedFrames(inRate, outRate, n);
    var whole := k * inRate / outRate;
    DivBounds(k * inRate, outRate);
    if n > 0 {
      AvailableIffEmitted(inRate, outRate, n, k);
      AvailableIsPosition(inRate, outRate, n, k);
      AvailableIffEmitted(inRate, outRate, n, k - 1);
      AvailableIsPosition(inRate, outRate, n, k - 1);
      assert (k - 1) * inRate == k * inRate - inRate;
      assert (n - 1) * outRate == n * outRate - outRate;
      if whole < n - 1 {
        MulStrict(whole, n - 1, outRate);
        assert false;
      }
      if whole >= n {
        MulMonotone(n, whole, outRate);
      }
    }
  }

  lemma DroppedMonotone(inRate: nat, outRate: nat, n: nat, m: nat)
    requires inRate > 0 && outRate > 0 && n <= m
    ensures DroppedFrames(inRate, outRate, n) <= DroppedFrames(inRate, outRate, m)
  {
    EmittedMonotone(inRate, outRate, n, m);
    var k, k' := EmittedFrames(inRate, outRate, n), EmittedFrames(inRate, outRate, m);
    MulMonotone(k, k', inRate);
    DivBounds(k * inRate, outRate);
    LeDiv(k * inRate / outRate, outRate, k' * inRate);
  }

  /** `m` further input frames determine at most floor(m * outRate / inRate) + 1 further frames. */
  lemma EmittedGrowth(inRate: nat, outRate: nat, n: nat, m: nat)
    requires inRate > 0 && outRate > 0
    ensures EmittedFrames(inRate, outRate, n + m) - EmittedFrames(inRate, outRate, n) <= m * outRate / inRate + 1
  {
    if n > 0 {
      var x, y := (n - 1) * outRate, m * outRate;
      assert (n + m - 1) * outRate == x + y;
      DivBounds(x, inRate);
      DivBounds(y, inRate);
      DivBounds(x + y, inRate);
      var q := x / inRate + y / inRate + 2;
      assert q * inRate == (x / inRate) * inRate + (y / inRate) * inRate + 2 * inRate;
      if (x + y) / inRate >= q {
        MulMonotone(q, (x + y) / inRate, inRate);
        assert false;
      }
    } else if m > 0 {
      MulMonotone(m - 1, m, outRate);
      DivBounds((m - 1) * outRate, inRate);
      LeDiv((m - 1) * outRate / inRate, inRate, m * outRate);
    }
  }

  /** Feeding the constructor's chunk scales to at most one frame over a packet unless the stream
      is upsampled more than twofold by a ratio that does not divide the packet. */
  lemma ChunkScalesToPacket(inRate: nat, outRate: nat, outFrames: nat)
    requires inRate > 0 && outRate > 0
    requires outFrames * inRate % outRate == 0 || outRate <= 2 * inRate
    ensures CeilDiv(outFrames * inRate, outRate) * outRate / inRate <= outFrames + 1
  {
    var a := outFrames * inRate;
    var m := CeilDiv(a, outRate);
    DivBounds(a + outRate - 1, outRate);
    assert m * outRate < a + outRate;
    if a % outRate == 0 {
      DivBounds(a, outRate);
      assert (a / outRate) * outRate == a;
      DivIs(a + outRate - 1, outRate, a / outRate);
    }
    assert m * outRate < a + 2 * inRate;
    assert (outFrames + 2) * inRate == a + 2 * inRate;
    DivBounds(m * outRate, inRate);
    if m * outRate / inRate >= outFrames + 2 {
      MulMonotone(outFrames + 2, m * outRate / inRate, inRate);
      assert false;
    }
  }
}
