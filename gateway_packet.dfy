/** The gateway's radio frame (radio.rs, `Packet`) and the two payload
    classifiers of its poll loop. A frame on the wire is
    `[|message| + 3, to, from, control] ++ message`. */
module GatewayPacket {
  import opened Base

  /** Control bit: the sender asks for an acknowledgement. */
  const AckRequestBit: byte := 0x40
  /** Control bit: this frame is an acknowledgement. */
  const AckBit: byte := 0x80

  /** Payload marker of a configuration request and of a configuration push (util.rs). */
  const PacketConfig: byte := 0x02
  /** Payload marker of a telemetry report (util.rs). */
  const PacketData: byte := 0x08
  /** Total length of a telemetry payload the poll loop accepts. */
  const DataUpdateLength: nat := 10

  datatype Packet = Packet(from: byte, to: byte, message: seq<byte>, control: byte)

  /** `control & 0x40 != 0`. */
  predicate AckRequested(p: Packet)
  {
    (p.control / AckRequestBit) % 2 == 1
  }

  predicate IsTo(p: Packet, addr: byte)
  {
    p.to == addr
  }

  /** `Packet::new`: the control byte carries only the ACK-request bit, and only on request. */
  function New(from: byte, to: byte, message: seq<byte>, requestAck: bool): (p: Packet)
    ensures p.from == from && p.to == to && p.message == message
    ensures AckRequested(p) == requestAck
    ensures p.control == 0 || p.control == AckRequestBit
  {
    Packet(from, to, message, if requestAck then AckRequestBit else 0)
  }

  /** `Packet::ack_from`: the reply goes back to the sender, is marked as an
      acknowledgement and never asks for one itself, whatever `packet` carried. */
  function AckFrom(packet: Packet): (ack: Packet)
    ensures ack.from == packet.to && ack.to == packet.from
    ensures ack.message == []
    ensures ack.control == AckBit
    ensures !AckRequested(ack)
  {
    Packet(packet.to, packet.from, [], AckBit)
  }

  /** `as_bytes`: the length byte is `(|message| + 3) as u8`, which wraps for
      messages longer than 252 bytes. */
  function AsBytes(p: Packet): (bytes: seq<byte>)
    ensures |bytes| == |p.message| + 4
    ensures bytes[4..] == p.message
  {
    [(|p.message| + 3) % 0x100, p.to, p.from, p.control] + p.message
  }

  /** What `from_bytes` needs in order not to panic: a header, a length byte of
      at least 3 (`buffer[0] - 3` underflows otherwise) and a declared payload
      inside the buffer (the slice `4..4 + len` panics otherwise). */
  predicate Decodable(buffer: seq<byte>)
  {
    |buffer| >= 4 && buffer[0] >= 3 && buffer[0] + 1 <= |buffer|
  }

  /** `from_bytes`: the message is the declared number of bytes after the
      header; anything after it in the buffer is ignored. */
  function FromBytes(buffer: seq<byte>): (p: Packet)
    requires Decodable(buffer)
    ensures |p.message| == buffer[0] - 3
    ensures AsBytes(p) == buffer[..buffer[0] + 1]
  {
    var len := buffer[0] - 3;
    var message := if len > 0 then buffer[4..4 + len] else [];
    Packet(buffer[2], buffer[1], message, buffer[3])
  }

  /** `is_config_request`. */
  predicate IsConfigRequest(data: seq<byte>)
  {
    |data| == 1 && data[0] == PacketConfig
  }

  /** `is_data_update`. */
  predicate IsDataUpdate(data: seq<byte>)
  {
    |data| == DataUpdateLength && data[0] == PacketData
  }

  /** Decoding an encoded frame gives back the packet, for every message that
      fits the length byte, even when the frame sits at the front of a larger
      receive buffer (the gateway always reads into 64 bytes). */
  lemma {:induction false} FromBytesAsBytes(p: Packet, trailing: seq<byte>)
    requires |p.message| <= 252
    ensures Decodable(AsBytes(p) + trailing)
    ensures FromBytes(AsBytes(p) + trailing) == p
  {
    var buffer := AsBytes(p) + trailing;
    assert buffer[0] == |p.message| + 3;
    var q := FromBytes(buffer);
    assert q.message == buffer[4..4 + |p.message|] by {
      if |p.message| == 0 {
        assert buffer[4..4] == [];
      }
    }
    assert buffer[4..4 + |p.message|] == p.message;
  }

  /** Encoding a decoded buffer reproduces its declared prefix, so the two are
      inverse on the frames the decoder accepts. */
  lemma AsBytesFromBytes(buffer: seq<byte>)
    requires Decodable(buffer)
    ensures AsBytes(FromBytes(buffer)) + buffer[buffer[0] + 1..] == buffer
  {
    assert buffer[..buffer[0] + 1] + buffer[buffer[0] + 1..] == buffer;
  }

  /** A configuration request and a telemetry report can never be confused. */
  lemma ClassifiersDisjoint(data: seq<byte>)
    ensures !(IsConfigRequest(data) && IsDataUpdate(data))
  {
  }

  /** An acknowledgement is never itself acknowledged. */
  lemma AckOfAckNotRequested(p: Packet)
    ensures !AckRequested(AckFrom(AckFrom(p)))
    ensures AckFrom(AckFrom(p)).from == p.from && AckFrom(AckFrom(p)).to == p.to
  {
  }
}
