/** The wire format of UDP punch packets: a four byte tag and a little-endian transaction id. */
module PunchPacket {
  import opened Prelude

  type Packet = seq<Byte>

  const PUNCH_PROBE: Packet := [0x52, 0x44, 0x50, 0x3F]  // RDP?
  const PUNCH_ACK: Packet := [0x52, 0x44, 0x50, 0x21]    // RDP!
  const PUNCH_PACKET_LEN: nat := 12

  function LittleEndian(x: nat, width: nat): (bytes: Packet)
    ensures |bytes| == width
  {
    if width == 0 then [] else [x % 256] + LittleEndian(x / 256, width - 1)
  }

  function FromLittleEndian(bytes: Packet): nat {
    if bytes == [] then 0 else bytes[0] + 256 * FromLittleEndian(bytes[1..])
  }

  function Pow256(n: nat): nat {
    if n == 0 then 1 else 256 * Pow256(n - 1)
  }

  const TID_LIMIT: nat := Pow256(8)

  lemma {:induction false} DecodeEncode(x: nat, width: nat)
    requires x < Pow256(width)
    ensures FromLittleEndian(LittleEndian(x, width)) == x
  {
    if width > 0 {
      DecodeEncode(x / 256, width - 1);
      assert LittleEndian(x, width)[1..] == LittleEndian(x / 256, width - 1);
    }
  }

  lemma SplitByte(b: Byte, y: nat)
    ensures (b + 256 * y) % 256 == b && (b + 256 * y) / 256 == y
  {}

  lemma {:induction false} EncodeDecode(bytes: Packet)
    ensures FromLittleEndian(bytes) < Pow256(|bytes|)
    ensures LittleEndian(FromLittleEndian(bytes), |bytes|) == bytes
  {
    if bytes != [] {
      EncodeDecode(bytes[1..]);
      SplitByte(bytes[0], FromLittleEndian(bytes[1..]));
      assert bytes == [bytes[0]] + bytes[1..];
    }
  }

  /** The least significant byte comes first: of two numbers the smaller has the smaller byte where their
      bytes last differ. */
  lemma {:induction false} LittleEndianOrder(x: nat, y: nat, width: nat) returns (i: nat)
    requires x < y < Pow256(width)
    ensures i < width && LittleEndian(x, width)[i] < LittleEndian(y, width)[i]
    ensures LittleEndian(x, width)[i + 1..] == LittleEndian(y, width)[i + 1..]
    decreases width
  {
    var a, b := LittleEndian(x, width), LittleEndian(y, width);
    if x / 256 == y / 256 {
      i := 0;
      assert a[1..] == b[1..];
    } else {
      i := LittleEndianOrder(x / 256, y / 256, width - 1);
      assert a[1..] == LittleEndian(x / 256, width - 1) && b[1..] == LittleEndian(y / 256, width - 1);
      i := i + 1;
      assert a[i + 1..] == a[1..][i..] && b[i + 1..] == b[1..][i..];
    }
  }

  function Encode(tag: Packet, tid: nat): Packet {
    tag + LittleEndian(tid, 8)
  }

  /** `punch_tid`: the transaction id of a packet with this tag. */
  function Tid(packet: Packet, tag: Packet): Option<nat>
    requires |tag| == 4
  {
    if |packet| != PUNCH_PACKET_LEN || packet[..4] != tag then None else Some(FromLittleEndian(packet[4..]))
  }

  function Probe(tid: nat): Packet {
    Encode(PUNCH_PROBE, tid)
  }

  function Ack(tid: nat): Packet {
    Encode(PUNCH_ACK, tid)
  }

  /** A datagram carries a transaction id under a tag exactly when it is the packet made from them. */
  lemma TidInvertsEncode(packet: Packet, tag: Packet, tid: nat)
    requires |tag| == 4 && tid < TID_LIMIT
    ensures Tid(packet, tag) == Some(tid) <==> packet == Encode(tag, tid)
  {
    DecodeEncode(tid, 8);
    var made := Encode(tag, tid);
    assert made[..4] == tag && made[4..] == LittleEndian(tid, 8);
    if Tid(packet, tag) == Some(tid) {
      assert packet == packet[..4] + packet[4..];
      EncodeDecode(packet[4..]);
    }
  }

  lemma TidIsInRange(packet: Packet, tag: Packet)
    requires |tag| == 4 && Tid(packet, tag).Some?
    ensures Tid(packet, tag).value < TID_LIMIT && packet == Encode(tag, Tid(packet, tag).value)
  {
    EncodeDecode(packet[4..]);
    TidInvertsEncode(packet, tag, Tid(packet, tag).value);
  }

  /** No datagram is both a probe and an acknowledgement. */
  lemma ProbeIsNotAck(packet: Packet)
    ensures Tid(packet, PUNCH_PROBE).None? || Tid(packet, PUNCH_ACK).None?
  {
    assert PUNCH_PROBE[3] != PUNCH_ACK[3];
  }
}
