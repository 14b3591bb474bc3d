/**
  `FixedFrameAudioResampler`: cuts the resampled stream into packets of a fixed number of frames and
  keeps the incomplete one for the next call.
*/
module Packetiser {
  import opened Prelude
  import opened Arithmetic
  import opened Reservation
  import opened Resampler

  ghost predicate AllOfLength<T>(packets: seq<seq<T>>, n: nat) {
    forall i | 0 <= i < |packets| :: |packets[i]| == n
  }

  lemma {:induction false} FlattenLength<T>(packets: seq<seq<T>>, n: nat)
    requires AllOfLength(packets, n)
    ensures |Flatten(packets)| == |packets| * n
  {
    if packets != [] {
      FlattenLength(packets[..|packets| - 1], n);
      assert (|packets| - 1) * n + n == |packets| * n;
    }
  }

  /** Packets of one length and a shorter rest are determined by the stream they spell. */
  lemma {:induction false} PacketsAreDetermined<T>(p: seq<seq<T>>, r: seq<T>, p': seq<seq<T>>, r': seq<T>, n: nat)
    requires AllOfLength(p, n) && AllOfLength(p', n) && |r| < n && |r'| < n
    requires Flatten(p) + r == Flatten(p') + r'
    ensures p == p' && r == r'
    decreases |p|
  {
    FlattenLength(p, n);
    FlattenLength(p', n);
    if |p| < |p'| {
      MulStrict(|p|, |p'|, n);
      assert false;
    }
    if |p'| < |p| {
      MulStrict(|p'|, |p|, n);
      assert false;
    }
    var stream, cut := Flatten(p) + r, |p| * n;
    assert stream[..cut] == Flatten(p) && stream[..cut] == Flatten(p');
    assert stream[cut..] == r && stream[cut..] == r';
    if p != [] {
      var a, a' := p[..|p| - 1], p'[..|p'| - 1];
      var last, last' := p[|p| - 1], p'[|p'| - 1];
      FlattenLength(a, n);
      FlattenLength(a', n);
      assert Flatten(a) == Flatten(p)[..|Flatten(a)|] && Flatten(a') == Flatten(p')[..|Flatten(a')|];
      assert last == Flatten(p)[|Flatten(a)|..] && last' == Flatten(p')[|Flatten(a')|..];
      assert Flatten(a) + [] == Flatten(a') + [];
      PacketsAreDetermined(a, [], a', [], n);
      assert p == a + [last] && p' == a' + [last'];
    }
  }

  datatype Built<+A> = Ready(value: A) | Rejected(error: Error)

  /** The constructor's verdict: the first of its checks that fails, in the order they are made. */
  function Verdict(config: Config, outputFrames: nat): Outcome {
    if outputFrames == 0 then Failed(InvalidOutputFrameSize(outputFrames))
    else if !ValidConfig(config) then Failed(InvalidConfig(config))
    else if outputFrames * config.channels > USIZE_MAX then Failed(CapacityOverflow)
    else if outputFrames * config.inputRate > USIZE_MAX then Failed(CapacityOverflow)
    else if outputFrames * config.channels * PENDING_PACKET_CAPACITY > USIZE_MAX then Failed(CapacityOverflow)
    else if PacketCapacity(config, outputFrames) > USIZE_MAX then Failed(CapacityOverflow)
    else if ChunkCapacity(config, outputFrames) > USIZE_MAX then Failed(CapacityOverflow)
    else Done
  }

  /** The constructor accepts exactly what it can compute with without overflowing a machine word. */
  lemma VerdictDone(config: Config, outputFrames: nat)
    ensures Verdict(config, outputFrames).Done? <==>
            && outputFrames > 0 && ValidConfig(config)
            && PacketCapacity(config, outputFrames) <= USIZE_MAX
            && outputFrames * config.inputRate <= USIZE_MAX
            && ChunkCapacity(config, outputFrames) <= USIZE_MAX
  {}

  /** Samples reserved for pending packets. */
  function PacketCapacity(config: Config, outputFrames: nat): nat {
    outputFrames * config.channels * PENDING_PACKET_CAPACITY + config.channels * INTERPOLATION_MARGIN_FRAMES
  }

  /** Samples reserved for a dimensioned call behind what is retained. */
  function ChunkCapacity(config: Config, outputFrames: nat): nat
    requires ValidConfig(config)
  {
    (ChunkFrames(config.inputRate, config.outputRate, outputFrames) + INTERPOLATION_MARGIN_FRAMES) * config.channels
  }

  lemma MultiplesOf(a: nat, b: nat, m: nat)
    requires m > 0 && a % m == 0 && b % m == 0 && b <= a
    ensures (a - b) % m == 0 && (a + b) % m == 0
  {
    DivBounds(a, m);
    DivBounds(b, m);
    assert (a / m - b / m) * m == (a / m) * m - (b / m) * m;
    assert (a / m + b / m) * m == (a / m) * m + (b / m) * m;
    DivIs(a - b, m, a / m - b / m);
    DivIs(a + b, m, a / m + b / m);
  }

  lemma MultipleOfMultiple(k: nat, a: nat, m: nat)
    requires m > 0
    ensures k * (a * m) % m == 0
  {
    assert k * (a * m) == (k * a) * m;
    DivIs(k * (a * m), m, k * a);
  }

  class FixedFrameResampler<T> {
    const resampler: StreamingLinearResampler<T>
    const outputSamples: nat
    const outputFrames: nat
    var pending: seq<T>
    var pendingCapacity: nat
    ghost var delivered: seq<seq<T>>  // every packet handed out so far

    ghost predicate Valid()
      reads this, resampler
    {
      && resampler.Valid()
      && outputSamples == outputFrames * resampler.config.channels > 0
      && AllOfLength(delivered, outputSamples)
      && |pending| < outputSamples
      && |pending| % resampler.config.channels == 0
      && Flatten(delivered) + pending == resampler.Output()
    }

    /** The samples of a call the buffers are dimensioned for. */
    function ChunkSamples(): nat
      requires ValidConfig(resampler.config)
    {
      ChunkFrames(resampler.config.inputRate, resampler.config.outputRate, outputFrames) * resampler.config.channels
    }

    constructor (config: Config, blend: Blend<T>, outputFrames: nat)
      requires Verdict(config, outputFrames).Done?
      ensures Valid() && fresh(resampler) && pendingCapacity == PacketCapacity(config, outputFrames)
      ensures resampler.config == config && resampler.blend == blend && this.outputFrames == outputFrames
      ensures resampler.bufferedCapacity >= ChunkCapacity(config, outputFrames)
      ensures resampler.accepted == [] && delivered == [] && pending == []
    {
      var inputFrames := ChunkFrames(config.inputRate, config.outputRate, outputFrames);
      var backend := new StreamingLinearResampler<T>(config, blend, inputFrames);
      resampler := backend;
      this.outputFrames := outputFrames;
      outputSamples := outputFrames * config.channels;
      pending := [];
      pendingCapacity := PacketCapacity(config, outputFrames);
      delivered := [];
      MulStrict(0, outputFrames, config.channels);
    }

    /** `new`: builds the packetiser or reports the check that failed. */
    static method New(config: Config, blend: Blend<T>, outputFrames: nat) returns (r: Built<FixedFrameResampler<T>>)
      ensures r.Rejected? <==> Verdict(config, outputFrames).Failed?
      ensures r.Rejected? ==> r.error == Verdict(config, outputFrames).error
      ensures r.Ready? ==> fresh(r.value) && fresh(r.value.resampler) && r.value.Valid()
      ensures r.Ready? ==> r.value.pendingCapacity == PacketCapacity(config, outputFrames)
      ensures r.Ready? ==> r.value.resampler.bufferedCapacity >= ChunkCapacity(config, outputFrames)
      ensures r.Ready? ==> r.value.resampler.config == config && r.value.resampler.blend == blend
      ensures r.Ready? ==> r.value.outputFrames == outputFrames
      ensures r.Ready? ==> r.value.resampler.accepted == [] && r.value.delivered == [] && r.value.pending == []
    {
      var verdict := Verdict(config, outputFrames);
      match verdict {
        case Failed(error) => r := Rejected(error);
        case Done =>
          var packetiser := new FixedFrameResampler<T>(config, blend, outputFrames);
          r := Ready(packetiser);
      }
    }

    /** One call: whole packets out, the rest kept. A failed call changes nothing. */
    method ProcessWith(input: seq<T>) returns (r: Outcome, packets: seq<seq<T>>)
      requires Valid()
      modifies this, resampler
      ensures Valid()
      ensures r == if |input| % resampler.config.channels != 0 then Failed(IncompleteFrame(|input|, resampler.config.channels))
                   else if !CapacityFits(resampler.config, |input|) then Failed(CapacityOverflow)
                   else Done
      ensures r.Failed? ==> packets == [] && unchanged(this) && unchanged(resampler)
      ensures r.Done? ==> resampler.accepted == old(resampler.accepted) + input
      ensures delivered == old(delivered) + packets
      ensures r.Done? ==> ReservedTo(old(pendingCapacity), old(|pending|), OutputCapacity(resampler.config, |input|), pendingCapacity)
      ensures r.Done? ==> ReservedTo(old(resampler.bufferedCapacity), old(|resampler.buffered|), |input|, resampler.bufferedCapacity)
    {
      packets := [];
      var produced, capacity;
      r, produced, capacity := resampler.ProcessInto(input, pending, pendingCapacity);
      if r.Failed? {
        assert delivered + packets == delivered;
        return;
      }
      pendingCapacity := capacity;
      assert Flatten(delivered) + produced == resampler.Output();
      packets := Cut(produced);
    }

    /** Hands out the complete packets of `produced` and drains them from it. */
    method Cut(produced: seq<T>) returns (packets: seq<seq<T>>)
      requires resampler.Valid() && outputSamples == outputFrames * resampler.config.channels > 0
      requires AllOfLength(delivered, outputSamples)
      requires Flatten(delivered) + produced == resampler.Output()
      modifies `pending, `delivered
      ensures Valid() && delivered == old(delivered) + packets
    {
      packets := ChunksExact(produced, outputSamples);
      var complete := |produced| / outputSamples * outputSamples;
      PendingStaysAligned(produced, complete);
      FlattenAppend(delivered, packets);
      pending := produced[complete..];
      delivered := delivered + packets;
      assert Flatten(delivered) + pending == resampler.Output();
    }

    /** `pending[..complete].chunks_exact(n)`, in order. */
    static method ChunksExact(samples: seq<T>, n: nat) returns (packets: seq<seq<T>>)
      requires n > 0
      ensures AllOfLength(packets, n)
      ensures 0 <= |samples| / n * n <= |samples| < |samples| / n * n + n
      ensures Flatten(packets) == samples[..|samples| / n * n]
    {
      packets := [];
      var at := 0;
      while at + n <= |samples|
        invariant 0 <= at <= |samples| && at == |packets| * n
        invariant AllOfLength(packets, n)
        invariant Flatten(packets) == samples[..at]
      {
        NextPacket(packets, samples, at, n);
        packets := packets + [samples[at..at + n]];
        at := at + n;
      }
      DivIs(|samples|, n, |packets|);
    }

    static lemma NextPacket(packets: seq<seq<T>>, samples: seq<T>, at: nat, n: nat)
      requires at + n <= |samples| && at == |packets| * n && Flatten(packets) == samples[..at]
      ensures Flatten(packets + [samples[at..at + n]]) == samples[..at + n]
      ensures at + n == (|packets| + 1) * n
    {
      var packet := samples[at..at + n];
      var longer := packets + [packet];
      assert longer[..|longer| - 1] == packets;
      assert samples[..at] + packet == samples[..at + n];
      MulSucc(|packets|, n);
    }

    lemma PendingStaysAligned(produced: seq<T>, complete: nat)
      requires resampler.Valid() && outputSamples == outputFrames * resampler.config.channels > 0
      requires AllOfLength(delivered, outputSamples)
      requires Flatten(delivered) + produced == resampler.Output()
      requires complete == |produced| / outputSamples * outputSamples
      ensures 0 <= complete <= |produced|
      ensures |produced[complete..]| % resampler.config.channels == 0
    {
      var channels := resampler.config.channels;
      DivBounds(|produced|, outputSamples);
      FlattenLength(delivered, outputSamples);
      FramesLength(resampler.config, resampler.blend, resampler.accepted, resampler.emitted);
      MultipleOfMultiple(|delivered|, outputFrames, channels);
      MultipleOfMultiple(|produced| / outputSamples, outputFrames, channels);
      DivIs(resampler.emitted * channels, channels, resampler.emitted);
      MultiplesOf(|resampler.Output()|, |Flatten(delivered)|, channels);
      MultiplesOf(|produced|, complete, channels);
    }

    /** The rest is what the emitted frames leave over whole packets. */
    lemma PendingLength()
      requires Valid()
      ensures outputFrames > 0 && |pending| == resampler.emitted % outputFrames * resampler.config.channels
    {
      var channels, packets := resampler.config.channels, |delivered|;
      var p := |pending| / channels;
      FramesLength(resampler.config, resampler.blend, resampler.accepted, resampler.emitted);
      FlattenLength(delivered, outputSamples);
      DivBounds(|pending|, channels);
      FramesOfSamples(packets, outputFrames, p, resampler.emitted, channels);
    }

    /** After `j` dimensioned calls the next one finds room in the packet buffer exactly when
        `CallFits` says so, and always in the input buffer. */
    lemma ChunkHasRoom(j: nat)
      requires Valid() && |resampler.accepted| == j * ChunkSamples()
      ensures outputFrames > 0
      ensures |pending| + OutputCapacity(resampler.config, ChunkSamples()) <= PacketCapacity(resampler.config, outputFrames)
         <==> CallFits(resampler.config.inputRate, resampler.config.outputRate, outputFrames, j)
      ensures |resampler.buffered| + ChunkSamples() <= ChunkCapacity(resampler.config, outputFrames)
    {
      var c := resampler.config;
      var m := ChunkFrames(c.inputRate, c.outputRate, outputFrames);
      PendingLength();
      SamplesOfChunks(j, m, c.channels);
      RoomInFrames(PendingFrames(c.inputRate, c.outputRate, outputFrames, j),
                   ScaledChunk(c.inputRate, c.outputRate, outputFrames), outputFrames, c.channels);
      resampler.RetainsAtMostOneFrame();
    }

    /** After `j` dimensioned calls no buffer has grown. */
    ghost predicate Unchanged(j: nat)
      reads this, resampler
    {
      && Valid()
      && pendingCapacity == PacketCapacity(resampler.config, outputFrames)
      && resampler.bufferedCapacity >= ChunkCapacity(resampler.config, outputFrames)
      && (CapacityFits(resampler.config, ChunkSamples()) ==> |resampler.accepted| == j * ChunkSamples())
    }

    method FeedOne(input: seq<T>, ghost j: nat) returns (grew: bool)
      requires Unchanged(j) && |input| == ChunkSamples()
      modifies this, resampler
      ensures outputFrames > 0 && (grew <==> Outgrown(resampler.config, outputFrames, j))
      ensures !grew ==> Unchanged(j + 1)
    {
      var pendingBefore, bufferedBefore := pendingCapacity, resampler.bufferedCapacity;
      PendingLength();
      SamplesOfChunks(j, ChunkFrames(resampler.config.inputRate, resampler.config.outputRate, outputFrames), resampler.config.channels);
      if CapacityFits(resampler.config, ChunkSamples()) {
        ChunkHasRoom(j);
        MulSucc(j, ChunkSamples());
      }
      var outcome, packets := ProcessWith(input);
      grew := pendingCapacity != pendingBefore || resampler.bufferedCapacity != bufferedBefore;
    }
  }

  lemma SamplesOfChunks(j: nat, m: nat, channels: nat)
    requires channels > 0
    ensures j * (m * channels) / channels == j * m
    ensures m * channels / channels == m && m * channels % channels == 0
    ensures (m + INTERPOLATION_MARGIN_FRAMES) * channels == m * channels + 2 * channels
  {
    assert j * (m * channels) == (j * m) * channels;
    DivIs((j * m) * channels, channels, j * m);
    DivIs(m * channels, channels, m);
    MulAdd(m, INTERPOLATION_MARGIN_FRAMES, channels);
  }

  lemma FramesOfSamples(packets: nat, outputFrames: nat, p: nat, emitted: nat, channels: nat)
    requires channels > 0 && p * channels < outputFrames * channels
    requires packets * (outputFrames * channels) + p * channels == emitted * channels
    ensures outputFrames > 0 && emitted % outputFrames == p
  {
    if p >= outputFrames {
      MulMonotone(outputFrames, p, channels);
      assert false;
    }
    assert packets * (outputFrames * channels) == (packets * outputFrames) * channels;
    MulAdd(packets * outputFrames, p, channels);
    var e := packets * outputFrames + p;
    if e < emitted {
      MulStrict(e, emitted, channels);
    } else if emitted < e {
      MulStrict(emitted, e, channels);
    }
    DivIs(emitted, outputFrames, packets);
  }

  lemma RoomInFrames(pending: nat, scaled: nat, packet: nat, channels: nat)
    requires channels > 0
    ensures pending * channels + (scaled + INTERPOLATION_MARGIN_FRAMES) * channels
              <= packet * channels * PENDING_PACKET_CAPACITY + channels * INTERPOLATION_MARGIN_FRAMES
       <==> pending + scaled <= PENDING_PACKET_CAPACITY * packet
  {
    var a, b := pending + scaled, PENDING_PACKET_CAPACITY * packet;
    assert pending * channels + (scaled + INTERPOLATION_MARGIN_FRAMES) * channels == a * channels + 2 * channels;
    assert packet * channels * PENDING_PACKET_CAPACITY == b * channels;
    if a <= b {
      MulMonotone(a, b, channels);
    } else {
      MulStrict(b, a, channels);
    }
  }

  /** The calls that are accepted, concatenated. */
  function AcceptedInput<T>(config: Config, calls: seq<seq<T>>): seq<T>
    requires ValidConfig(config)
  {
    if calls == [] then []
    else
      var last := calls[|calls| - 1];
      var before := AcceptedInput(config, calls[..|calls| - 1]);
      if |last| % config.channels == 0 && CapacityFits(config, |last|) then before + last else before
  }

  /** A whole session: any calls whatever, good and bad, over one fresh packetiser. */
  method Session<T>(config: Config, blend: Blend<T>, outputFrames: nat, calls: seq<seq<T>>)
    returns (error: Outcome, packets: seq<seq<T>>, pending: seq<T>)
    ensures error == Verdict(config, outputFrames)
    ensures error.Done? ==> AllOfLength(packets, outputFrames * config.channels)
    ensures error.Done? ==> |pending| < outputFrames * config.channels
    ensures error.Done? ==> Flatten(packets) + pending == Resample(config, blend, AcceptedInput(config, calls))
  {
    packets, pending, error := [], [], Verdict(config, outputFrames);
    var built := FixedFrameResampler<T>.New(config, blend, outputFrames);
    if built.Rejected? {
      return;
    }
    var packetiser := built.value;
    for i := 0 to |calls|
      invariant packetiser.Valid() && packetiser.resampler.config == config && packetiser.resampler.blend == blend
      invariant packetiser.outputFrames == outputFrames
      invariant fresh(packetiser) && fresh(packetiser.resampler)
      invariant packets == packetiser.delivered
      invariant packetiser.resampler.accepted == AcceptedInput(config, calls[..i])
    {
      assert calls[..i + 1][..i] == calls[..i];
      var outcome, more := packetiser.ProcessWith(calls[i]);
      packets := packets + more;
    }
    assert calls[..|calls|] == calls;
    pending := packetiser.pending;
  }

  /** How a stream was split into calls does not show: two sessions that accepted the same samples
      end with the same packets and the same incomplete rest. */
  lemma SplitDoesNotShow<T>(config: Config, blend: Blend<T>, outputFrames: nat, calls: seq<seq<T>>, calls': seq<seq<T>>,
                            packets: seq<seq<T>>, pending: seq<T>, packets': seq<seq<T>>, pending': seq<T>)
    requires Verdict(config, outputFrames).Done?
    requires AcceptedInput(config, calls) == AcceptedInput(config, calls')
    requires AllOfLength(packets, outputFrames * config.channels) && AllOfLength(packets', outputFrames * config.channels)
    requires |pending| < outputFrames * config.channels && |pending'| < outputFrames * config.channels
    requires Flatten(packets) + pending == Resample(config, blend, AcceptedInput(config, calls))
    requires Flatten(packets') + pending' == Resample(config, blend, AcceptedInput(config, calls'))
    ensures packets == packets' && pending == pending'
  {
    PacketsAreDetermined(packets, pending, packets', pending', outputFrames * config.channels);
  }

  // ---------------------------------------------------------------------------------------------
  // The reservation

  /** Feeds a fresh packetiser calls of the dimensioned size and watches both allocations. */
  method Feed<T>(config: Config, blend: Blend<T>, outputFrames: nat, calls: seq<seq<T>>) returns (grew: bool)
    requires Verdict(config, outputFrames).Done?
    requires AllOfLength(calls, ChunkFrames(config.inputRate, config.outputRate, outputFrames) * config.channels)
    ensures grew <==> exists j | 0 <= j < |calls| :: Outgrown(config, outputFrames, j)
  {
    var packetiser := new FixedFrameResampler<T>(config, blend, outputFrames);
    for j := 0 to |calls|
      invariant packetiser.Unchanged(j) && packetiser.resampler.config == config && packetiser.outputFrames == outputFrames
      invariant fresh(packetiser) && fresh(packetiser.resampler)
      invariant forall i | 0 <= i < j :: !Outgrown(config, outputFrames, i)
    {
      grew := packetiser.FeedOne(calls[j], j);
      if grew {
        return;
      }
    }
    grew := false;
  }

  /** Call `j` of the dimensioned size has to grow a buffer. */
  predicate Outgrown(config: Config, outputFrames: nat, j: nat)
    requires ValidConfig(config) && outputFrames > 0
  {
    && CapacityFits(config, ChunkFrames(config.inputRate, config.outputRate, outputFrames) * config.channels)
    && !CallFits(config.inputRate, config.outputRate, outputFrames, j)
  }

  /** No dimensioned call ever grows a buffer, exactly when such a call is rejected or the most that
      is ever pending leaves room for it. */
  lemma NeverOutgrownIff(config: Config, outputFrames: nat)
    requires Verdict(config, outputFrames).Done?
    ensures (forall j: nat :: !Outgrown(config, outputFrames, j))
       <==> || !CapacityFits(config, ChunkFrames(config.inputRate, config.outputRate, outputFrames) * config.channels)
            || Suffices(config.inputRate, config.outputRate, outputFrames)
  {
    EveryCallFitsIff(config.inputRate, config.outputRate, outputFrames);
    if !Suffices(config.inputRate, config.outputRate, outputFrames) {
      var j: nat :| !CallFits(config.inputRate, config.outputRate, outputFrames, j);
      assert CapacityFits(config, ChunkFrames(config.inputRate, config.outputRate, outputFrames) * config.channels)
         ==> Outgrown(config, outputFrames, j);
    }
  }

  /** Tenfold upsampling into single frames does not suffice: the very first call grows a buffer. */
  lemma TenfoldUpsamplingOutgrows(config: Config)
    requires config == Config(1, 10, 1)
    ensures Verdict(config, 1).Done? && Outgrown(config, 1, 0) && !Suffices(1, 10, 1)
  {
    assert ChunkFrames(1, 10, 1) == 1 && ScaledChunk(1, 10, 1) == 10;
    assert ScaledFrames(config, 1) == 10;
    EveryCallFitsIff(1, 10, 1);
  }
}
