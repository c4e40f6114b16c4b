/** The gateway's radio transport (radio.rs, `RfmWrapper` and the poll loop of
    `Radio::receiver_channel`). The rfm69 driver is an oracle: what `recv`
    delivered and whether each `send` succeeded are inputs, and every frame
    handed to `send` is appended to `sent`. */
module GatewayRadio {
  import opened Base
  import opened GatewayPacket
  import GatewayConfig

  /** Size of the buffer `receive` hands to the driver. */
  const ReceiveBufferSize: nat := 64

  /** What the driver's `recv` did with the 64-byte buffer. */
  datatype Reception = RecvFailed | Received(buffer: seq<byte>)

  /** A received buffer `from_bytes` can decode without panicking. */
  predicate Receivable(reception: Reception)
  {
    reception.Received? ==> |reception.buffer| == ReceiveBufferSize && Decodable(reception.buffer)
  }

  /** One turn of the poll loop, as the hardware decides it: what was received,
      and how the driver answers the ACK send and the config send, if any. */
  datatype RadioCycle = RadioCycle(reception: Reception, ackSendOk: bool, configSendOk: bool)

  /** The packet `receive` decodes, if the driver delivered one. */
  function Incoming(reception: Reception): Option<Packet>
  {
    match reception
    case RecvFailed => None
    case Received(buffer) => if Decodable(buffer) then Some(FromBytes(buffer)) else None
  }

  /** The frames `receive` transmits: one acknowledgement when the packet asks
      for one and is addressed to this gateway, none otherwise. */
  function AckFrames(gatewayAddr: byte, reception: Reception): seq<seq<byte>>
  {
    match Incoming(reception)
    case None => []
    case Some(p) => if AckRequested(p) && IsTo(p, gatewayAddr) then [AsBytes(AckFrom(p))] else []
  }

  /** What `receive` returns. */
  function ReceiveResult(gatewayAddr: byte, reception: Reception, ackSendOk: bool): Result<seq<byte>>
  {
    match Incoming(reception)
    case None => Err(RadioError)
    case Some(p) =>
      if AckRequested(p) && IsTo(p, gatewayAddr) && !ackSendOk then Err(RadioError) else Ok(p.message)
  }

  /** `receive` acknowledges exactly the packets that ask for it and are
      addressed to this gateway. */
  lemma AckExactlyWhenRequested(gatewayAddr: byte, buffer: seq<byte>)
    requires Receivable(Received(buffer))
    ensures var p := FromBytes(buffer);
      |AckFrames(gatewayAddr, Received(buffer))| == (if AckRequested(p) && p.to == gatewayAddr then 1 else 0)
  {
  }

  /** The acknowledgement `receive` sends decodes, on the node's side of the
      protocol, to the reply `ack_from` builds: back to the sender, from this
      gateway, empty, flagged as an ACK and asking for none. */
  lemma AckFrameDecodes(gatewayAddr: byte, buffer: seq<byte>)
    requires Receivable(Received(buffer))
    requires |AckFrames(gatewayAddr, Received(buffer))| == 1
    ensures var p := FromBytes(buffer);
      var frame := AckFrames(gatewayAddr, Received(buffer))[0];
      Decodable(frame) && FromBytes(frame) == AckFrom(p) &&
      FromBytes(frame).to == p.from && FromBytes(frame).from == gatewayAddr
  {
    var p := FromBytes(buffer);
    FromBytesAsBytes(AckFrom(p), []);
    assert AsBytes(AckFrom(p)) + [] == AsBytes(AckFrom(p));
  }

  /** The configuration push frame for `node`: `[PACKET_CONFIG] ++ to_bytes()`
      from the gateway to the node, without an ACK request. */
  function ConfigFrame(gatewayAddr: byte, nodeAddr: byte, downlink: seq<byte>): seq<byte>
  {
    AsBytes(New(gatewayAddr, nodeAddr, [PacketConfig] + downlink, false))
  }

  /** The frames one poll-loop turn sends and the dirty flag it leaves,
      given the node's address, its downlink bytes and its dirty flag. */
  function CycleEffect(gatewayAddr: byte, nodeAddr: byte, downlink: seq<byte>, dirty: bool, c: RadioCycle): (seq<seq<byte>>, bool)
  {
    var acks := AckFrames(gatewayAddr, c.reception);
    match ReceiveResult(gatewayAddr, c.reception, c.ackSendOk)
    case Err(_) => (acks, dirty)
    case Ok(message) =>
      if IsConfigRequest(message) then
        if dirty then (acks + [ConfigFrame(gatewayAddr, nodeAddr, downlink)], !c.configSendOk)
        else (acks, false)
      else (acks, dirty)
  }

  /** The message a turn forwards to the proxy, if the turn reaches the channel. */
  function Forwarded(gatewayAddr: byte, c: RadioCycle): Option<seq<byte>>
  {
    match ReceiveResult(gatewayAddr, c.reception, c.ackSendOk)
    case Ok(message) => if IsDataUpdate(message) then Some(message) else None
    case Err(_) => None
  }

  predicate AllReceivable(cycles: seq<RadioCycle>)
  {
    forall i :: 0 <= i < |cycles| ==> Receivable(cycles[i].reception)
  }

  /** What the poll loop has done so far: the frames handed to the driver,
      the node's dirty flag and the messages put on the channel. */
  datatype Trace = Trace(sent: seq<seq<byte>>, dirty: bool, forwarded: seq<seq<byte>>)

  /** One turn of the poll loop applied to a trace. */
  function Step(gatewayAddr: byte, nodeAddr: byte, downlink: seq<byte>, t: Trace, c: RadioCycle): Trace
  {
    var effect := CycleEffect(gatewayAddr, nodeAddr, downlink, t.dirty, c);
    Trace(t.sent + effect.0, effect.1,
      t.forwarded + match Forwarded(gatewayAddr, c) case Some(m) => [m] case None => [])
  }

  /** A run of turns, from the trace `t`. */
  function Run(gatewayAddr: byte, nodeAddr: byte, downlink: seq<byte>, t: Trace, cycles: seq<RadioCycle>): Trace
  {
    if cycles == [] then t
    else Step(gatewayAddr, nodeAddr, downlink, Run(gatewayAddr, nodeAddr, downlink, t, cycles[..|cycles| - 1]), cycles[|cycles| - 1])
  }

  lemma RunStep(gatewayAddr: byte, nodeAddr: byte, downlink: seq<byte>, t: Trace, cycles: seq<RadioCycle>, n: nat)
    requires n < |cycles|
    ensures Run(gatewayAddr, nodeAddr, downlink, t, cycles[..n + 1]) ==
      Step(gatewayAddr, nodeAddr, downlink, Run(gatewayAddr, nodeAddr, downlink, t, cycles[..n]), cycles[n])
  {
    assert cycles[..n + 1][..n] == cycles[..n];
  }

  /** A run only ever appends: to the frames sent and to the messages
      forwarded. Every message it forwards is a telemetry report, and it
      forwards at most one per turn. */
  lemma {:induction false} RunAppendsDataUpdates(gatewayAddr: byte, nodeAddr: byte, downlink: seq<byte>, t: Trace, cycles: seq<RadioCycle>)
    ensures var r := Run(gatewayAddr, nodeAddr, downlink, t, cycles);
      |t.sent| <= |r.sent| && r.sent[..|t.sent|] == t.sent &&
      |t.forwarded| <= |r.forwarded| <= |t.forwarded| + |cycles| && r.forwarded[..|t.forwarded|] == t.forwarded &&
      forall i :: |t.forwarded| <= i < |r.forwarded| ==> IsDataUpdate(r.forwarded[i])
  {
    if cycles != [] {
      var prefix := cycles[..|cycles| - 1];
      RunAppendsDataUpdates(gatewayAddr, nodeAddr, downlink, t, prefix);
      var before := Run(gatewayAddr, nodeAddr, downlink, t, prefix);
      var r := Step(gatewayAddr, nodeAddr, downlink, before, cycles[|cycles| - 1]);
      assert r.sent[..|before.sent|] == before.sent;
      assert r.forwarded[..|before.forwarded|] == before.forwarded;
    }
  }

  /** A run forwards nothing exactly when none of its turns yields a
      telemetry report; this is how a run against a closed channel looks up
      to the turn that stops the loop. */
  lemma {:induction false} RunForwardsNothing(gatewayAddr: byte, nodeAddr: byte, downlink: seq<byte>, t: Trace, cycles: seq<RadioCycle>)
    ensures Run(gatewayAddr, nodeAddr, downlink, t, cycles).forwarded == t.forwarded <==>
      forall j :: 0 <= j < |cycles| ==> Forwarded(gatewayAddr, cycles[j]).None?
  {
    if cycles != [] {
      var prefix := cycles[..|cycles| - 1];
      var last := cycles[|cycles| - 1];
      RunForwardsNothing(gatewayAddr, nodeAddr, downlink, t, prefix);
      RunAppendsDataUpdates(gatewayAddr, nodeAddr, downlink, t, prefix);
      var before := Run(gatewayAddr, nodeAddr, downlink, t, prefix);
      var r := Run(gatewayAddr, nodeAddr, downlink, t, cycles);
      NoneSplit(gatewayAddr, cycles, prefix);
      if Forwarded(gatewayAddr, last).None? {
        assert r.forwarded == before.forwarded + [];
        assert before.forwarded + [] == before.forwarded;
      } else {
        assert |r.forwarded| == |before.forwarded| + 1;
      }
    }
  }

  /** No turn of a run forwards anything exactly when no turn before the
      last does and the last does not. */
  lemma NoneSplit(gatewayAddr: byte, cycles: seq<RadioCycle>, prefix: seq<RadioCycle>)
    requires cycles != [] && prefix == cycles[..|cycles| - 1]
    ensures (forall j :: 0 <= j < |cycles| ==> Forwarded(gatewayAddr, cycles[j]).None?) <==>
      (forall j :: 0 <= j < |prefix| ==> Forwarded(gatewayAddr, prefix[j]).None?) &&
      Forwarded(gatewayAddr, cycles[|cycles| - 1]).None?
  {
    assert forall j :: 0 <= j < |prefix| ==> prefix[j] == cycles[j];
  }

  /** Two configuration requests in a row with no mutation in between push
      the configuration at most once: the first turn clears the flag when
      its send succeeds, and a clean node is never pushed. */
  lemma ConfigPushedAtMostOnce(gatewayAddr: byte, nodeAddr: byte, downlink: seq<byte>, dirty: bool, c1: RadioCycle, c2: RadioCycle)
    requires ReceiveResult(gatewayAddr, c1.reception, c1.ackSendOk) == Ok([PacketConfig])
    requires ReceiveResult(gatewayAddr, c2.reception, c2.ackSendOk) == Ok([PacketConfig])
    requires c1.configSendOk
    ensures var first := CycleEffect(gatewayAddr, nodeAddr, downlink, dirty, c1);
      var second := CycleEffect(gatewayAddr, nodeAddr, downlink, first.1, c2);
      !first.1 && second.0 == AckFrames(gatewayAddr, c2.reception) && !second.1
  {
  }

  /** The unbounded channel from the radio thread to the proxy: its queue and
      whether the receiving end has been dropped or closed. */
  class Channel {
    var queue: seq<seq<byte>>
    var receiverClosed: bool

    constructor ()
      ensures queue == [] && !receiverClosed
    {
      queue := [];
      receiverClosed := false;
    }

    /** `send` on the sending end: fails with "disconnected" once the receiver is gone. */
    method Send(item: seq<byte>) returns (delivered: bool)
      modifies this`queue
      ensures delivered == !receiverClosed
      ensures queue == if delivered then old(queue) + [item] else old(queue)
    {
      delivered := !receiverClosed;
      if delivered {
        queue := queue + [item];
      }
    }

    /** `close` on the receiving end. */
    method Close()
      modifies this`receiverClosed
      ensures receiverClosed
    {
      receiverClosed := true;
    }
  }

  /** `RfmWrapper`: the driver and the gateway's own address. */
  class RfmWrapper {
    const gatewayAddr: byte
    var sent: seq<seq<byte>>

    constructor (gatewayAddr: byte)
      ensures this.gatewayAddr == gatewayAddr && sent == []
    {
      this.gatewayAddr := gatewayAddr;
      sent := [];
    }

    /** `receive`: decodes the received frame, acknowledges it when asked to
      and returns its message; a failed `recv` or a failed ACK send is an error. */
    method Receive(reception: Reception, ackSendOk: bool) returns (r: Result<seq<byte>>)
      requires Receivable(reception)
      modifies this`sent
      ensures sent == old(sent) + AckFrames(gatewayAddr, reception)
      ensures r == ReceiveResult(gatewayAddr, reception, ackSendOk)
    {
      match reception
      case RecvFailed =>
        return Err(RadioError);
      case Received(buffer) =>
        var packet := FromBytes(buffer);
        if AckRequested(packet) && IsTo(packet, gatewayAddr) {
          var ack := AckFrom(packet);
          sent := sent + [AsBytes(ack)];
          if !ackSendOk {
            return Err(RadioError);
          }
        }
        return Ok(packet.message);
    }

    /** `send`: one frame from the gateway to `to`, never asking for an ACK. */
    method Send(data: seq<byte>, to: byte, sendOk: bool) returns (r: Result<()>)
      modifies this`sent
      ensures sent == old(sent) + [AsBytes(New(gatewayAddr, to, data, false))]
      ensures r == if sendOk then Ok(()) else Err(RadioError)
    {
      var packet := New(gatewayAddr, to, data, false);
      sent := sent + [AsBytes(packet)];
      r := if sendOk then Ok(()) else Err(RadioError);
    }

    /** `send_config`: pushes `[PACKET_CONFIG] ++ to_bytes()` to the node only
        when the node is dirty, then clears the flag; a failed send returns
        early through `?` and leaves the flag set. */
    method SendConfig(node: GatewayConfig.Node, sendOk: bool) returns (r: Result<()>)
      requires node.Valid()
      modifies this`sent, node`configDirty
      ensures old(node.configDirty) ==>
        sent == old(sent) + [ConfigFrame(gatewayAddr, node.nodeAddr, GatewayConfig.Downlink(node.sleepTime, node.digital, node.analog))] &&
        node.configDirty == !sendOk && r == (if sendOk then Ok(()) else Err(RadioError))
      ensures !old(node.configDirty) ==> sent == old(sent) && !node.configDirty && r == Ok(())
    {
      if node.configDirty {
        var buffer := node.ToBytes();
        buffer := [PacketConfig] + buffer;
        r := Send(buffer, node.nodeAddr, sendOk);
        if r.Err? {
          return;
        }
      }
      node.UpdateConfigDirty(false);
      r := Ok(());
    }

    /** One turn of the poll loop: receive, then answer a configuration
        request, forward a telemetry report, or drop anything else. Returns
        true when the loop must end, which happens only when forwarding finds
        the proxy's end of the channel gone. */
    method PollOnce(c: RadioCycle, node: GatewayConfig.Node, channel: Channel) returns (stop: bool)
      requires Receivable(c.reception) && node.Valid()
      modifies this`sent, node`configDirty, channel`queue
      ensures var effect := CycleEffect(gatewayAddr, node.nodeAddr,
          GatewayConfig.Downlink(node.sleepTime, node.digital, node.analog), old(node.configDirty), c);
        sent == old(sent) + effect.0 && node.configDirty == effect.1
      ensures stop == (Forwarded(gatewayAddr, c).Some? && channel.receiverClosed)
      ensures channel.queue == old(channel.queue) +
        match Forwarded(gatewayAddr, c) case Some(m) => (if channel.receiverClosed then [] else [m]) case None => []
    {
      stop := false;
      var result := Receive(c.reception, c.ackSendOk);
      if result.Err? {
        return;
      }
      var buffer := result.value;
      if IsConfigRequest(buffer) {
        var _ := SendConfig(node, c.configSendOk);
      } else if IsDataUpdate(buffer) {
        var delivered := channel.Send(buffer);
        if !delivered {
          stop := true;
        }
      }
    }

    /** Turn `n` of a run, stated against the run so far. */
    method PollNth(cycles: seq<RadioCycle>, n: nat, node: GatewayConfig.Node, channel: Channel,
                   ghost downlink: seq<byte>, ghost t0: Trace)
      returns (stop: bool)
      requires AllReceivable(cycles) && n < |cycles| && node.Valid()
      requires downlink == GatewayConfig.Downlink(node.sleepTime, node.digital, node.analog)
      requires Trace(sent, node.configDirty, channel.queue) == Run(gatewayAddr, node.nodeAddr, downlink, t0, cycles[..n])
      modifies this`sent, node`configDirty, channel`queue
      ensures stop == (channel.receiverClosed && Forwarded(gatewayAddr, cycles[n]).Some?)
      ensures var r := Run(gatewayAddr, node.nodeAddr, downlink, t0, cycles[..n + 1]);
        sent == r.sent && node.configDirty == r.dirty &&
        channel.queue == if stop then old(channel.queue) else r.forwarded
      ensures channel.receiverClosed ==> channel.queue == old(channel.queue)
    {
      RunStep(gatewayAddr, node.nodeAddr, downlink, t0, cycles, n);
      stop := PollOnce(cycles[n], node, channel);
    }

    /** The poll loop over a finite run of turns: it goes on through every
        error and every dropped payload, and ends early only at a telemetry
        report the closed channel refuses. */
    method ReceiverLoop(cycles: seq<RadioCycle>, node: GatewayConfig.Node, channel: Channel) returns (turns: nat)
      requires AllReceivable(cycles) && node.Valid()
      modifies this`sent, node`configDirty, channel`queue
      ensures turns <= |cycles|
      ensures turns < |cycles| ==> channel.receiverClosed && Forwarded(gatewayAddr, cycles[turns]).Some?
      ensures channel.receiverClosed ==> channel.queue == old(channel.queue)
      ensures var t0 := Trace(old(sent), old(node.configDirty), old(channel.queue));
        var downlink := GatewayConfig.Downlink(node.sleepTime, node.digital, node.analog);
        var r := Run(gatewayAddr, node.nodeAddr, downlink, t0, cycles[..if turns < |cycles| then turns + 1 else turns]);
        sent == r.sent && node.configDirty == r.dirty &&
        channel.queue == Run(gatewayAddr, node.nodeAddr, downlink, t0, cycles[..turns]).forwarded
    {
      ghost var downlink := GatewayConfig.Downlink(node.sleepTime, node.digital, node.analog);
      ghost var t0 := Trace(sent, node.configDirty, channel.queue);
      turns := 0;
      while turns < |cycles|
        invariant turns <= |cycles|
        invariant channel.receiverClosed ==> channel.queue == t0.forwarded
        invariant Trace(sent, node.configDirty, channel.queue) == Run(gatewayAddr, node.nodeAddr, downlink, t0, cycles[..turns])
      {
        var stop := PollNth(cycles, turns, node, channel, downlink, t0);
        if stop {
          return;
        }
        turns := turns + 1;
      }
      assert cycles[..turns] == cycles;
    }
  }
}
