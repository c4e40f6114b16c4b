/** The radio protocol between the gateway and a node, seen from both ends:
    the frames one side builds are the frames the other side parses, with
    the addresses, flags and payloads each side expects. */
module Protocol {
  import opened Base
  import GatewayPacket
  import GatewayConfig
  import GatewayRadio
  import NodeRadio
  import NodeMain

  /** The gateway's `as_bytes` and the node's `rfm69_send_frame` lay out a
      frame the same way: length, target, sender, control, payload. */
  lemma SameFrameLayout(from: byte, to: byte, message: seq<byte>, requestAck: bool)
    requires |message| <= NodeRadio.MaxDataLen
    ensures GatewayPacket.AsBytes(GatewayPacket.New(from, to, message, requestAck)) ==
      NodeRadio.TxFrame(to, from, NodeRadio.Control(requestAck, false), message)
  {
  }

  /** The gateway's acknowledgement is the frame the node's `send_ack` would send. */
  lemma SameAckLayout(p: GatewayPacket.Packet)
    ensures GatewayPacket.AsBytes(GatewayPacket.AckFrom(p)) ==
      NodeRadio.TxFrame(p.from, p.to, NodeRadio.Control(false, true), [])
  {
  }

  /** The node's configuration request reaches the gateway as a request from
      that node, asking for no acknowledgement, so the gateway sends none. */
  lemma {:induction false} ConfigRequestRecognised(nodeAddr: byte, trailing: seq<byte>)
    requires 5 + |trailing| == GatewayRadio.ReceiveBufferSize
    ensures var buffer := NodeRadio.TxFrame(NodeMain.GatewayAddr, nodeAddr, NodeRadio.Control(false, false), [NodeMain.PacketConfig]) + trailing;
      GatewayRadio.Receivable(GatewayRadio.Received(buffer)) &&
      GatewayRadio.Incoming(GatewayRadio.Received(buffer)) ==
        Some(GatewayPacket.New(nodeAddr, NodeMain.GatewayAddr, [NodeMain.PacketConfig], false)) &&
      GatewayPacket.IsConfigRequest([NodeMain.PacketConfig]) &&
      GatewayRadio.AckFrames(NodeMain.GatewayAddr, GatewayRadio.Received(buffer)) == []
  {
    var p := GatewayPacket.New(nodeAddr, NodeMain.GatewayAddr, [NodeMain.PacketConfig], false);
    SameFrameLayout(nodeAddr, NodeMain.GatewayAddr, [NodeMain.PacketConfig], false);
    GatewayPacket.FromBytesAsBytes(p, trailing);
  }

  /** The configuration the gateway pushes, `[PACKET_CONFIG] ++ to_bytes()`,
      is taken by a listening node as a packet that `update_config` applies
      exactly when the gateway uses the address the node expects, and then
      the node adopts the sleep time and the direction and value masks, and
      the analog inputs the gateway selected among A0..A2, plus the battery. */
  lemma {:induction false} ConfigPushApplied(gatewayAddr: byte, nodeAddr: byte, sleepTime: u16,
      digital: seq<(string, GatewayConfig.DigitalPin)>, analog: seq<(string, GatewayConfig.AnalogPin)>,
      s: NodeRadio.RadioState, trailing: seq<byte>)
    requires GatewayConfig.DigitalNumbersFit(digital) && GatewayConfig.AnalogNumbersFit(analog)
    requires |s.packet.data| == NodeRadio.BufferSize && s.mode == NodeRadio.Receive
    ensures var downlink := GatewayConfig.Downlink(sleepTime, digital, analog);
      var (done, t) := NodeRadio.ReceiveDoneEffect(s, true, true,
        GatewayRadio.ConfigFrame(gatewayAddr, nodeAddr, downlink) + trailing);
      done && !t.ackRequested &&
      (NodeMain.ConfigAccepted(t.packet, nodeAddr) <==> gatewayAddr == NodeMain.GatewayAddr) &&
      (gatewayAddr == NodeMain.GatewayAddr ==>
        NodeMain.ConfigFrom(t.packet) ==
          NodeMain.Config(sleepTime, GatewayConfig.DirectionMask(digital) as int,
            GatewayConfig.ValueMask(digital) as int, NodeMain.AnalogMask(GatewayConfig.AnalogMask(analog) as int)))
  {
    var downlink := GatewayConfig.Downlink(sleepTime, digital, analog);
    var message := [NodeMain.PacketConfig] + downlink;
    SameFrameLayout(gatewayAddr, nodeAddr, message, false);
    var f := NodeRadio.RxFrame(nodeAddr, gatewayAddr, NodeRadio.Control(false, false), message);
    NodeRadio.ParseTxFrame(nodeAddr, gatewayAddr, NodeRadio.Control(false, false), message, trailing);
    NodeRadio.ReceiveDoneReportsFrame(s, GatewayRadio.ConfigFrame(gatewayAddr, nodeAddr, downlink) + trailing, f);
    var t := NodeRadio.ReceiveDoneEffect(s, true, true, GatewayRadio.ConfigFrame(gatewayAddr, nodeAddr, downlink) + trailing).1;
    assert t.packet.data[..|message|] == message;
    assert t.packet.data[0] == message[0] && t.packet.data[1] == downlink[0] && t.packet.data[2] == downlink[1];
    assert t.packet.data[3] == downlink[2] && t.packet.data[4] == downlink[3] && t.packet.data[5] == downlink[4];
  }

  /** A telemetry frame from the node reaches the gateway as a data update
      from that node, asking for an acknowledgement, whose analog words are
      the node's; the gateway answers it with exactly one acknowledgement. */
  lemma {:induction false} TelemetryReachesGateway(nodeAddr: byte, gpioValue: byte, words: seq<u16>, trailing: seq<byte>)
    requires |words| == 4
    requires NodeMain.TelemetryLength + 4 + |trailing| == GatewayRadio.ReceiveBufferSize
    ensures var message := NodeMain.TelemetryFrame(gpioValue, words);
      var buffer := NodeRadio.TxFrame(NodeMain.GatewayAddr, nodeAddr, NodeRadio.Control(true, false), message) + trailing;
      var p := GatewayPacket.New(nodeAddr, NodeMain.GatewayAddr, message, true);
      GatewayRadio.Receivable(GatewayRadio.Received(buffer)) &&
      GatewayRadio.Incoming(GatewayRadio.Received(buffer)) == Some(p) &&
      GatewayPacket.IsDataUpdate(message) && NodeMain.TelemetryWords(message) == words &&
      GatewayRadio.AckFrames(NodeMain.GatewayAddr, GatewayRadio.Received(buffer)) ==
        [GatewayPacket.AsBytes(GatewayPacket.AckFrom(p))]
  {
    var message := NodeMain.TelemetryFrame(gpioValue, words);
    var p := GatewayPacket.New(nodeAddr, NodeMain.GatewayAddr, message, true);
    SameFrameLayout(nodeAddr, NodeMain.GatewayAddr, message, true);
    GatewayPacket.FromBytesAsBytes(p, trailing);
    NodeMain.TelemetryRoundTrip(gpioValue, words);
  }

  /** The gateway's acknowledgement of a node's packet, read by that node
      while it waits, makes `rfm69_ack_received` succeed: it is reported,
      comes from the gateway and is marked as an acknowledgement, so an
      attempt of the retry loop that hears it first is acknowledged. */
  lemma {:induction false} AckCompletesSend(nodeAddr: byte, message: seq<byte>, s: NodeRadio.RadioState, trailing: seq<byte>)
    requires |s.packet.data| == NodeRadio.BufferSize && s.mode == NodeRadio.Receive
    ensures var p := GatewayPacket.New(nodeAddr, NodeMain.GatewayAddr, message, true);
      var (done, t) := NodeRadio.ReceiveDoneEffect(s, true, true, GatewayPacket.AsBytes(GatewayPacket.AckFrom(p)) + trailing);
      done && t.packet.senderId == NodeMain.GatewayAddr && t.packet.targetId == nodeAddr &&
      t.ackReceived && !t.ackRequested
    ensures var p := GatewayPacket.New(nodeAddr, NodeMain.GatewayAddr, message, true);
      NodeRadio.AckFrom(Some(GatewayPacket.AsBytes(GatewayPacket.AckFrom(p)) + trailing), NodeMain.GatewayAddr)
  {
    var p := GatewayPacket.New(nodeAddr, NodeMain.GatewayAddr, message, true);
    SameAckLayout(p);
    var f := NodeRadio.RxFrame(nodeAddr, NodeMain.GatewayAddr, NodeRadio.Control(false, true), []);
    NodeRadio.ParseTxFrame(nodeAddr, NodeMain.GatewayAddr, NodeRadio.Control(false, true), [], trailing);
    NodeRadio.ReceiveDoneReportsFrame(s, GatewayPacket.AsBytes(GatewayPacket.AckFrom(p)) + trailing, f);
    NodeRadio.ControlFlags(false, true);
  }
}
