/**
  Whether the buffers reserved in `FixedFrameAudioResampler::new` are ever outgrown.

  The constructor dimensions them for chunks of ceil(packet * inRate / outRate) input frames. After `j`
  such chunks the pending frames are a remainder that cycles with `j`; the largest one the cycle
  reaches decides whether some call has to grow the packet buffer.
*/
module Reservation {
  import opened Arithmetic
  import opened ResampleMath
  import opened Residues

  const PENDING_PACKET_CAPACITY: nat := 2

  predicate Proper(inRate: nat, outRate: nat, packet: nat) {
    inRate > 0 && outRate > 0 && packet > 0
  }

  /** The input frames of a dimensioned call. */
  function ChunkFrames(inRate: nat, outRate: nat, packet: nat): nat
    requires outRate > 0
  {
    CeilDiv(packet * inRate, outRate)
  }

  /** What such a call reserves, less the interpolation margin. */
  function ScaledChunk(inRate: nat, outRate: nat, packet: nat): nat
    requires inRate > 0 && outRate > 0
  {
    ChunkFrames(inRate, outRate, packet) * outRate / inRate
  }

  /** The frames of the incomplete packet after `j` dimensioned calls. */
  function PendingFrames(inRate: nat, outRate: nat, packet: nat, j: nat): nat
    requires Proper(inRate, outRate, packet)
  {
    EmittedFrames(inRate, outRate, j * ChunkFrames(inRate, outRate, packet)) % packet
  }

  /** The call after `j` dimensioned ones finds its room in the packet buffer. */
  predicate CallFits(inRate: nat, outRate: nat, packet: nat, j: nat)
    requires Proper(inRate, outRate, packet)
  {
    PendingFrames(inRate, outRate, packet, j) + ScaledChunk(inRate, outRate, packet) <= PENDING_PACKET_CAPACITY * packet
  }

  lemma ChunkIsPositive(inRate: nat, outRate: nat, packet: nat)
    requires Proper(inRate, outRate, packet)
    ensures ChunkFrames(inRate, outRate, packet) > 0
    ensures ChunkFrames(inRate, outRate, packet) * outRate > 0
    ensures packet * inRate > 0
  {
    MulStrict(0, packet, inRate);
    LeDiv(1, outRate, packet * inRate + outRate - 1);
    MulStrict(0, ChunkFrames(inRate, outRate, packet), outRate);
  }

  /** The most frames that are ever pending: those of the largest residue of the cycle. */
  function PeakPending(inRate: nat, outRate: nat, packet: nat): int
    requires Proper(inRate, outRate, packet)
  {
    ChunkIsPositive(inRate, outRate, packet);
    LargestResidue(ChunkFrames(inRate, outRate, packet) * outRate, packet * inRate, inRate - outRate) / inRate
  }

  /** What a caller can check beforehand. */
  predicate Suffices(inRate: nat, outRate: nat, packet: nat)
    requires Proper(inRate, outRate, packet)
  {
    PeakPending(inRate, outRate, packet) + ScaledChunk(inRate, outRate, packet) <= PENDING_PACKET_CAPACITY * packet
  }

  /** Splitting `e * inRate + rest` at multiples of a packet and then of a frame. */
  lemma FrameOfRemainder(e: nat, rest: nat, inRate: nat, packet: nat)
    requires packet > 0 && rest < inRate
    ensures packet * inRate > 0
    ensures (e * inRate + rest) % (packet * inRate) / inRate == e % packet
  {
    var q, r := e / packet, e % packet;
    DivBounds(e, packet);
    MulStrict(0, packet, inRate);
    MulAdd(q * packet, r, inRate);
    assert (q * packet) * inRate == q * (packet * inRate);
    MulStrict(r, packet, inRate);
    DivIs(e * inRate + rest, packet * inRate, q);
    DivIs(r * inRate + rest, inRate, r);
  }

  lemma EmittedOfPosition(inRate: nat, outRate: nat, n: nat)
    requires inRate > 0 && n > 0
    ensures 0 <= n * outRate + (inRate - outRate) - EmittedFrames(inRate, outRate, n) * inRate < inRate
  {
    var x := (n - 1) * outRate;
    MulSucc(n - 1, outRate);
    DivBounds(x, inRate);
    MulSucc(x / inRate, inRate);
  }

  lemma PendingIsResidue(inRate: nat, outRate: nat, packet: nat, j: nat)
    requires Proper(inRate, outRate, packet) && j > 0
    ensures packet * inRate > 0
    ensures var a := ChunkFrames(inRate, outRate, packet) * outRate;
            PendingFrames(inRate, outRate, packet, j) == (j * a + (inRate - outRate)) % (packet * inRate) / inRate
  {
    var m := ChunkFrames(inRate, outRate, packet);
    var e := EmittedFrames(inRate, outRate, j * m);
    ChunkIsPositive(inRate, outRate, packet);
    MulStrict(0, j, m);
    EmittedOfPosition(inRate, outRate, j * m);
    var rest := j * m * outRate + (inRate - outRate) - e * inRate;
    FrameOfRemainder(e, rest, inRate, packet);
    assert j * m * outRate == j * (m * outRate);
  }

  lemma PeakIsReached(inRate: nat, outRate: nat, packet: nat) returns (j: nat)
    requires Proper(inRate, outRate, packet)
    ensures PendingFrames(inRate, outRate, packet, j) == PeakPending(inRate, outRate, packet)
  {
    ChunkIsPositive(inRate, outRate, packet);
    j := ResidueReached(ChunkFrames(inRate, outRate, packet) * outRate, packet * inRate, inRate - outRate);
    PendingIsResidue(inRate, outRate, packet, j);
  }

  lemma PendingBelowPeak(inRate: nat, outRate: nat, packet: nat, j: nat)
    requires Proper(inRate, outRate, packet)
    ensures PendingFrames(inRate, outRate, packet, j) <= PeakPending(inRate, outRate, packet)
  {
    if j == 0 {
      var k := PeakIsReached(inRate, outRate, packet);
      NothingPendingAtFirst(inRate, outRate, packet);
    } else {
      ChunkIsPositive(inRate, outRate, packet);
      PendingIsResidue(inRate, outRate, packet, j);
      FrameBelowLargest(ChunkFrames(inRate, outRate, packet) * outRate, packet * inRate, inRate - outRate, j, inRate);
    }
  }

  lemma NothingPendingAtFirst(inRate: nat, outRate: nat, packet: nat)
    requires Proper(inRate, outRate, packet)
    ensures PendingFrames(inRate, outRate, packet, 0) == 0
  {}

  lemma FrameBelowLargest(a: nat, b: nat, c: int, j: nat, inRate: nat)
    requires a > 0 && b > 0 && inRate > 0
    ensures (j * a + c) % b / inRate <= LargestResidue(a, b, c) / inRate
  {
    ResidueBound(a, b, c, j);
    DivMonotone((j * a + c) % b, LargestResidue(a, b, c), inRate);
  }

  /** Every dimensioned call finds its room, however many there are, exactly when the peak leaves it. */
  lemma EveryCallFitsIff(inRate: nat, outRate: nat, packet: nat)
    requires Proper(inRate, outRate, packet)
    ensures (forall j: nat :: CallFits(inRate, outRate, packet, j)) <==> Suffices(inRate, outRate, packet)
  {
    forall j: nat | Suffices(inRate, outRate, packet)
      ensures CallFits(inRate, outRate, packet, j)
    {
      PendingBelowPeak(inRate, outRate, packet, j);
    }
    var j := PeakIsReached(inRate, outRate, packet);
    assert CallFits(inRate, outRate, packet, j) ==> Suffices(inRate, outRate, packet);
  }

  /** Dividing ratios, every downsampling and every upsampling up to twofold are safe. */
  lemma UsualRatiosSuffice(inRate: nat, outRate: nat, packet: nat)
    requires Proper(inRate, outRate, packet)
    requires packet * inRate % outRate == 0 || outRate <= 2 * inRate
    ensures Suffices(inRate, outRate, packet)
  {
    var j := PeakIsReached(inRate, outRate, packet);
    ChunkScalesToPacket(inRate, outRate, packet);
  }

  /** They are not the only ones: threefold upsampling into packets of four frames divides nothing, and
      no call outgrows its buffers. */
  lemma ThreefoldUpsamplingSuffices()
    ensures 4 * 1 % 3 != 0 && Suffices(1, 3, 4)
  {
    assert ChunkFrames(1, 3, 4) == 2;
    assert Gcd(6, 4) == Gcd(4, 2) == Gcd(2, 0);
    assert (1 - 3) % 2 == 0;
  }
}
