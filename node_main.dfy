/** The node firmware's protocol logic (node/main.c): the configuration the
    gateway pushes, the 10-byte telemetry frame, the acknowledged send with
    retries, and one turn of the main loop (ask for a configuration, apply
    one if it arrives, report the measurements). */
module NodeMain {
  import opened Base
  import NodeRadio
  import NodeGpio
  import NodeAdc

  /** `PACKET_CONFIG`, `PACKET_DATA`, `GATEWAY_ADDR`, `CONFIG_LENGTH`, `ACK_RETRY_COUNT` (config.h). */
  const PacketConfig: byte := 0x02
  const PacketData: byte := 0x08
  const GatewayAddr: byte := 1
  const ConfigLength: nat := 5
  const AckRetryCount: nat := 5
  const TelemetryLength: nat := 10
  /** `BAT_CHANNEL` (adc.h): the battery input of the analog mask. */
  const BatChannel: byte := 0x08

  /** `struct config`. */
  datatype Config = Config(sleepTime: u16, dioDirection: byte, dioValue: byte, analog: byte)
  {
    /** The analog mask as the bit set `adc_convert` takes. */
    function Channels(): bv8
    {
      analog as bv8
    }
  }

  /** The static initialiser of `conf`: ten seconds, all pins inputs, battery only. */
  const InitialConfig := Config(10, 0x00, 0x00, BatChannel)

  // ------------------------------------------------------------ configuration

  /** `(b & 0x07) | BAT_CHANNEL`. */
  function AnalogMask(b: byte): (mask: byte)
    ensures mask < 0x10 && mask / 8 == 1 && mask % 8 == b % 8
  {
    b % 8 + BatChannel
  }

  /** The guard of `update_config`: a packet from the gateway, to this node,
      with a marker byte and five configuration bytes, marked as a
      configuration. */
  predicate ConfigAccepted(p: NodeRadio.Packet, nodeAddr: byte)
  {
    p.senderId == GatewayAddr && p.targetId == nodeAddr && p.dataLen == ConfigLength + 1 &&
    |p.data| > ConfigLength && p.data[0] == PacketConfig
  }

  /** The configuration `update_config` reads out of an accepted packet. */
  function ConfigFrom(p: NodeRadio.Packet): (c: Config)
    requires |p.data| > ConfigLength
    ensures Hi(c.sleepTime) == p.data[1] && Lo(c.sleepTime) == p.data[2]
    ensures c.dioDirection == p.data[3] && c.dioValue == p.data[4]
    ensures c.analog == AnalogMask(p.data[5])
  {
    Config(BigEndian16(p.data[1], p.data[2]), p.data[3], p.data[4], AnalogMask(p.data[5]))
  }

  /** `conf` after `update_config`: replaced by an accepted packet's
      configuration, kept otherwise. */
  function UpdatedConfig(conf: Config, p: NodeRadio.Packet, nodeAddr: byte): Config
  {
    if ConfigAccepted(p, nodeAddr) then ConfigFrom(p) else conf
  }

  /** The configuration is replaced only by a packet that passes every check,
      and the battery input stays selected whatever the gateway sends. */
  lemma UpdatedConfigOutcome(conf: Config, p: NodeRadio.Packet, nodeAddr: byte)
    requires conf.analog / 8 % 2 == 1
    ensures UpdatedConfig(conf, p, nodeAddr) != conf ==> ConfigAccepted(p, nodeAddr)
    ensures UpdatedConfig(conf, p, nodeAddr).analog / 8 % 2 == 1
  {
  }

  // ------------------------------------------------------------ telemetry

  /** The telemetry frame: marker, digital bitmap, then the four analog words
      big-endian. */
  function TelemetryFrame(gpioValue: byte, adc: seq<u16>): (frame: seq<byte>)
    requires |adc| == NodeAdc.InputCount
    ensures |frame| == TelemetryLength
  {
    [PacketData, gpioValue, Hi(adc[0]), Lo(adc[0]), Hi(adc[1]), Lo(adc[1]),
     Hi(adc[2]), Lo(adc[2]), Hi(adc[3]), Lo(adc[3])]
  }

  /** The analog words a receiver reads back out of a telemetry frame. */
  function TelemetryWords(frame: seq<byte>): (adc: seq<u16>)
    requires |frame| == TelemetryLength
    ensures |adc| == NodeAdc.InputCount
  {
    seq(NodeAdc.InputCount, i requires 0 <= i < NodeAdc.InputCount => BigEndian16(frame[2 + 2 * i], frame[3 + 2 * i]))
  }

  /** The frame carries its marker and bitmap and gives back exactly the
      analog words that went into it. */
  lemma TelemetryRoundTrip(gpioValue: byte, adc: seq<u16>)
    requires |adc| == NodeAdc.InputCount
    ensures TelemetryFrame(gpioValue, adc)[0] == PacketData && TelemetryFrame(gpioValue, adc)[1] == gpioValue
    ensures TelemetryWords(TelemetryFrame(gpioValue, adc)) == adc
  {
    var words := TelemetryWords(TelemetryFrame(gpioValue, adc));
    forall i | 0 <= i < NodeAdc.InputCount
      ensures words[i] == adc[i]
    {
      BigEndian16RoundTrip(adc[i]);
    }
  }

  /** The swap of `send_measured_data` as written: A2's and the battery's
      results always change places. */
  function SwapAsWritten(adc: seq<u16>): (r: seq<u16>)
    requires |adc| == NodeAdc.InputCount
    ensures |r| == NodeAdc.InputCount
  {
    adc[NodeAdc.A2Input := adc[NodeAdc.BatInput]][NodeAdc.BatInput := adc[NodeAdc.A2Input]]
  }

  /** The converter delivers the battery (channel 8) before A2 (channel 9),
      so the two results need to change places only when both inputs are
      selected. */
  function SlotOrder(channels: bv8, adc: seq<u16>): (r: seq<u16>)
    requires |adc| == NodeAdc.InputCount
    ensures |r| == NodeAdc.InputCount
  {
    if Bit(channels, NodeAdc.A2Input) && Bit(channels, NodeAdc.BatInput) then SwapAsWritten(adc) else adc
  }

  /** The results of `adc_convert` for the values `sample` on the inputs. */
  function Measured(channels: bv8, sample: seq<u16>): (r: seq<u16>)
    requires |sample| == NodeAdc.InputCount
    ensures |r| == NodeAdc.InputCount
  {
    NodeAdc.Converted(channels, NodeAdc.ScanReadings(channels, sample), NodeAdc.InputCount)
  }

  /** With the battery selected alone, the firmware's own default, the
      unconditional swap reports the battery voltage in A2's slot and zero in
      the battery's slot. */
  lemma SwapAsWrittenMisplacesBattery(sample: seq<u16>)
    requires |sample| == NodeAdc.InputCount
    ensures SwapAsWritten(Measured(BatChannel as bv8, sample)) == [0, 0, sample[NodeAdc.BatInput], 0]
  {
    var ch := BatChannel as bv8;
    var readings := NodeAdc.ScanReadings(ch, sample);
    assert readings == [sample[NodeAdc.BatInput]];
    NodeAdc.ConvertedEntries(ch, readings, NodeAdc.InputCount);
  }

  /** After `SlotOrder`, slot `i` holds input `i`'s value if it is selected
      and zero otherwise, for every selection. */
  lemma {:induction false} SlotOrderCorrect(channels: bv8, sample: seq<u16>)
    requires |sample| == NodeAdc.InputCount
    ensures forall i :: 0 <= i < NodeAdc.InputCount ==>
      SlotOrder(channels, Measured(channels, sample))[i] == if Bit(channels, i) then sample[i] else 0
  {
    var readings := NodeAdc.ScanReadings(channels, sample);
    NodeAdc.ConvertedEntries(channels, readings, NodeAdc.InputCount);
    assert NodeAdc.Selected(channels, 4) == NodeAdc.Selected(channels, 3) + (if Bit(channels, 3) then 1 else 0);
    assert NodeAdc.Selected(channels, 3) == NodeAdc.Selected(channels, 2) + (if Bit(channels, 2) then 1 else 0);
    assert NodeAdc.Selected(channels, 2) == NodeAdc.Selected(channels, 1) + (if Bit(channels, 1) then 1 else 0);
    assert NodeAdc.Selected(channels, 1) == (if Bit(channels, 0) then 1 else 0);
  }

  function Repeat(frame: seq<byte>, n: nat): (r: seq<seq<byte>>)
    ensures |r| == n && forall i :: 0 <= i < n ==> r[i] == frame
  {
    if n == 0 then [] else Repeat(frame, n - 1) + [frame]
  }

  // ------------------------------------------------------------ reception

  /** What the chip takes off the air before poll `k` of a wait, if anything. */
  function Heard(arrivals: seq<Option<seq<byte>>>, k: nat): Option<seq<byte>>
  {
    if k < |arrivals| then arrivals[k] else None
  }

  /** What the chip takes off the air during attempt `i` of the retry loop. */
  function Attempt(arrivals: seq<seq<Option<seq<byte>>>>, i: nat): seq<Option<seq<byte>>>
  {
    if i < |arrivals| then arrivals[i] else []
  }

  /** The frame the handler takes out of arrival `k`. */
  function FrameAt(arrivals: seq<Option<seq<byte>>>, k: nat): NodeRadio.RxFrame
    requires NodeRadio.Parses(Heard(arrivals, k))
  {
    NodeRadio.ParseFifo(Heard(arrivals, k).value).value
  }

  /** Poll `k` of a wait is the first at which a frame arrives that the
      handler can take. Poll 0 follows a send, in standby, and takes nothing. */
  ghost predicate FirstFrame(arrivals: seq<Option<seq<byte>>>, k: nat)
  {
    1 <= k && NodeRadio.Parses(Heard(arrivals, k)) &&
    forall j :: 1 <= j < k ==> !NodeRadio.Parses(Heard(arrivals, j))
  }

  /** A frame the handler can take arrives during a wait of `budget` polls after the first. */
  ghost predicate FrameWithin(arrivals: seq<Option<seq<byte>>>, budget: nat)
  {
    exists k :: 1 <= k <= budget && NodeRadio.Parses(Heard(arrivals, k))
  }

  /** An acknowledgement from the gateway arrives during such a wait. */
  ghost predicate AckWithin(arrivals: seq<Option<seq<byte>>>, budget: nat)
  {
    exists k :: 1 <= k <= budget && NodeRadio.AckFrom(Heard(arrivals, k), GatewayAddr)
  }

  /** The first frame to arrive during such a wait is an acknowledgement from the gateway. */
  ghost predicate AckFirst(arrivals: seq<Option<seq<byte>>>, budget: nat)
  {
    exists k: nat :: k <= budget && FirstFrame(arrivals, k) && NodeRadio.AckFrom(Heard(arrivals, k), GatewayAddr)
  }

  /** The outcome of the retry loop of `send_measured_data`: `outcomes[i]`
      is whether attempt `i` was acknowledged. The loop stops at the first
      acknowledged attempt, or after `ACK_RETRY_COUNT` attempts. An attempt
      is acknowledged only if an acknowledgement from the gateway arrived
      while it waited, and always when the first frame to arrive was one. */
  ghost predicate Retried(arrivals: seq<seq<Option<seq<byte>>>>, ackBudget: nat, attempts: nat, acked: bool,
      outcomes: seq<bool>)
  {
    1 <= attempts <= AckRetryCount && |outcomes| == attempts &&
    acked == outcomes[attempts - 1] && (!acked ==> attempts == AckRetryCount) &&
    (forall i :: 0 <= i < attempts - 1 ==> !outcomes[i]) &&
    (forall i :: 0 <= i < attempts ==>
      (outcomes[i] ==> AckWithin(Attempt(arrivals, i), ackBudget)) &&
      (AckFirst(Attempt(arrivals, i), ackBudget) ==> outcomes[i]))
  }

  /** When no acknowledgement from the gateway arrives, the frame is sent
      `ACK_RETRY_COUNT` times and the send ends unacknowledged. */
  lemma RetriedWithoutAck(arrivals: seq<seq<Option<seq<byte>>>>, ackBudget: nat, attempts: nat, acked: bool,
      outcomes: seq<bool>)
    requires Retried(arrivals, ackBudget, attempts, acked, outcomes)
    requires forall i :: 0 <= i < AckRetryCount ==> !AckWithin(Attempt(arrivals, i), ackBudget)
    ensures attempts == AckRetryCount && !acked
  {
  }

  /** When the first frame to reach the first attempt is the gateway's
      acknowledgement, the frame is sent once. */
  lemma RetriedOnce(arrivals: seq<seq<Option<seq<byte>>>>, ackBudget: nat, attempts: nat, acked: bool,
      outcomes: seq<bool>)
    requires Retried(arrivals, ackBudget, attempts, acked, outcomes)
    requires AckFirst(Attempt(arrivals, 0), ackBudget)
    ensures attempts == 1 && acked
  {
  }

  // ------------------------------------------------------------ firmware

  class Firmware {
    const radio: NodeRadio.Rfm69
    const gpio: NodeGpio.Gpio
    const adc: NodeAdc.Adc
    /** `conf`. */
    var conf: Config

    predicate Valid()
      reads radio`regs, radio`mode, radio`dataLen, radio`payloadLen, gpio`levels
    {
      radio.Valid() && |gpio.levels| == NodeGpio.GpioCount
    }

    constructor (radio: NodeRadio.Rfm69, gpio: NodeGpio.Gpio, adc: NodeAdc.Adc)
      requires radio.Valid() && |gpio.levels| == NodeGpio.GpioCount
      ensures Valid() && conf == InitialConfig
      ensures this.radio == radio && this.gpio == gpio && this.adc == adc
    {
      this.radio := radio;
      this.gpio := gpio;
      this.adc := adc;
      conf := InitialConfig;
    }

    /** `update_config`: an accepted packet replaces `conf` and reconfigures
        the digital pins; any other packet changes nothing. */
    method UpdateConfig()
      requires Valid()
      modifies this`conf, gpio`calls
      ensures conf == UpdatedConfig(old(conf), radio.State().packet, radio.nodeAddr)
      ensures ConfigAccepted(radio.State().packet, radio.nodeAddr) ==>
        gpio.calls == old(gpio.calls) + NodeGpio.SetupCalls(conf.dioDirection as bv8, conf.dioValue as bv8, NodeGpio.GpioCount)
      ensures !ConfigAccepted(radio.State().packet, radio.nodeAddr) ==> gpio.calls == old(gpio.calls)
    {
      var packet := radio.GetData();
      if packet.senderId == GatewayAddr && packet.targetId == radio.nodeAddr &&
         packet.dataLen == ConfigLength + 1 && packet.data[0] == PacketConfig {
        conf := Config(BigEndian16(packet.data[1], packet.data[2]), packet.data[3], packet.data[4],
                       packet.data[5] % 8 + BatChannel);
        gpio.DioSetup(conf.dioDirection as bv8, conf.dioValue as bv8);
      }
    }

    /** `packet_received`, entered right after the configuration request has
        left the radio in standby: `receive_done` is polled once, then up to
        `budget` more times (the polls that fit in `CONFIG_TIMEOUT`), until it
        reports a frame. `arrivals[k]` is what the chip takes off the air
        before poll `k`. The wait ends with a frame exactly when one the
        handler can take arrives in time, and then holds the first such
        frame. */
    method PacketReceived(arrivals: seq<Option<seq<byte>>>, budget: nat) returns (done: bool)
      requires Valid() && radio.mode == NodeRadio.Standby
      modifies radio, radio.dataBuffer
      ensures Valid() && radio.air == old(radio.air)
      ensures done <==> FrameWithin(arrivals, budget)
      ensures done ==> radio.mode == NodeRadio.Standby
      ensures done ==>
        exists k: nat :: k <= budget && FirstFrame(arrivals, k) && NodeRadio.Holds(radio.State(), FrameAt(arrivals, k))
      ensures !done ==> radio.mode == NodeRadio.Receive && radio.payloadLen == 0
    {
      done := Poll(Heard(arrivals, 0));
      var polls := 0;
      while !done && polls < budget
        invariant Valid() && radio.air == old(radio.air) && polls <= budget
        invariant !done ==> radio.mode == NodeRadio.Receive && radio.payloadLen == 0 && !radio.dataAvailable
        invariant !done ==> forall j :: 1 <= j <= polls ==> !NodeRadio.Parses(Heard(arrivals, j))
        invariant done ==> radio.mode == NodeRadio.Standby
        invariant done ==> FirstFrame(arrivals, polls) && NodeRadio.Holds(radio.State(), FrameAt(arrivals, polls))
        decreases budget - polls
      {
        polls := polls + 1;
        done := Poll(Heard(arrivals, polls));
      }
    }

    /** One `rfm69_receive_done` poll, after the chip has taken `arrival` off
        the air, if anything arrived since the last poll. */
    method Poll(arrival: Option<seq<byte>>) returns (done: bool)
      requires Valid()
      modifies radio, radio.dataBuffer
      ensures Valid() && radio.air == old(radio.air) && !radio.dataAvailable
      ensures done ==> radio.mode == NodeRadio.Standby && radio.payloadLen > 0
      ensures !done ==> radio.mode == NodeRadio.Receive && radio.payloadLen == 0
      ensures old(radio.mode) != NodeRadio.Receive ==> !done
      ensures old(radio.mode) == NodeRadio.Receive && old(radio.payloadLen) == 0 && !old(radio.dataAvailable) ==>
        (done <==> NodeRadio.Parses(arrival)) &&
        (done ==> NodeRadio.Holds(radio.State(), NodeRadio.ParseFifo(arrival.value).value))
    {
      if arrival.Some? {
        radio.FrameArrives(arrival.value);
      }
      ghost var s := radio.State();
      ghost var dataAvailable := radio.dataAvailable;
      ghost var payloadReady := NodeRadio.HasMask(radio.regs[NodeRadio.RegIrqFlags2], NodeRadio.PayloadReady);
      done := radio.ReceiveDone();
      NodeRadio.ReceiveDoneOutcome(s, dataAvailable, payloadReady, radio.fifo);
      NodeRadio.PollOutcome(s, dataAvailable, payloadReady, radio.fifo, arrival);
    }

    /** One `rfm69_ack_received(GATEWAY_ADDR)` poll, after the chip has taken
        `arrival` off the air, if anything arrived since the last poll. */
    method PollAck(arrival: Option<seq<byte>>) returns (acked: bool)
      requires Valid()
      modifies radio, radio.dataBuffer
      ensures Valid() && radio.air == old(radio.air) && !radio.dataAvailable
      ensures radio.mode == NodeRadio.Standby || (radio.mode == NodeRadio.Receive && radio.payloadLen == 0)
      ensures acked ==> radio.mode == NodeRadio.Standby && radio.senderId == GatewayAddr && radio.ackReceived
      ensures old(radio.mode) != NodeRadio.Receive ==> !acked && radio.mode == NodeRadio.Receive && radio.payloadLen == 0
      ensures old(radio.mode) == NodeRadio.Receive && old(radio.payloadLen) == 0 && !old(radio.dataAvailable) ==>
        (acked <==> NodeRadio.AckFrom(arrival, GatewayAddr)) &&
        (!NodeRadio.Parses(arrival) ==> radio.mode == NodeRadio.Receive && radio.payloadLen == 0)
    {
      if arrival.Some? {
        radio.FrameArrives(arrival.value);
      }
      ghost var s := radio.State();
      ghost var dataAvailable := radio.dataAvailable;
      ghost var payloadReady := NodeRadio.HasMask(radio.regs[NodeRadio.RegIrqFlags2], NodeRadio.PayloadReady);
      acked := radio.AckReceived(GatewayAddr);
      NodeRadio.ReceiveDoneOutcome(s, dataAvailable, payloadReady, radio.fifo);
      NodeRadio.PollOutcome(s, dataAvailable, payloadReady, radio.fifo, arrival);
    }

    /** The inner wait of the retry loop, entered right after `rfm69_send`
        has left the radio in standby: `rfm69_ack_received` is polled once,
        then up to `budget` more times (the polls that fit in `ACK_TIMEOUT`),
        until it succeeds. `arrivals[k]` is what the chip takes off the air
        before poll `k`. The wait succeeds only if an acknowledgement from the
        gateway arrives in time, and always does when the first frame to
        arrive is one. */
    method AwaitAck(arrivals: seq<Option<seq<byte>>>, budget: nat) returns (acked: bool)
      requires Valid() && radio.mode == NodeRadio.Standby
      modifies radio, radio.dataBuffer
      ensures Valid() && radio.air == old(radio.air)
      ensures acked ==> AckWithin(arrivals, budget)
      ensures AckFirst(arrivals, budget) ==> acked
    {
      acked := PollAck(Heard(arrivals, 0));
      var polls := 0;
      while !acked && polls < budget
        invariant Valid() && radio.air == old(radio.air) && polls <= budget && !radio.dataAvailable
        invariant radio.mode == NodeRadio.Standby || (radio.mode == NodeRadio.Receive && radio.payloadLen == 0)
        invariant acked ==> 1 <= polls && NodeRadio.AckFrom(Heard(arrivals, polls), GatewayAddr)
        invariant (forall j :: 1 <= j <= polls ==> !NodeRadio.Parses(Heard(arrivals, j))) ==>
          radio.mode == NodeRadio.Receive && radio.payloadLen == 0
        invariant AckFirst(arrivals, polls) ==> acked
        decreases budget - polls
      {
        ghost var quiet := forall j :: 1 <= j <= polls ==> !NodeRadio.Parses(Heard(arrivals, j));
        polls := polls + 1;
        acked := PollAck(Heard(arrivals, polls));
        if AckFirst(arrivals, polls) {
          assert quiet;
        }
      }
    }

    /** The frame of `send_measured_data`: the converted analog inputs put in
        slot order, the digital bitmap, packed big-endian. */
    method MeasuredFrame() returns (frame: seq<byte>)
      requires Valid()
      requires NodeAdc.Selected(conf.Channels(), NodeAdc.InputCount) <= |adc.conversions|
      modifies adc`chselr, adc`conversions
      ensures |frame| == TelemetryLength
      ensures frame ==
        TelemetryFrame(frame[1], SlotOrder(conf.Channels(),
          NodeAdc.Converted(conf.Channels(), old(adc.conversions), NodeAdc.InputCount)))
      ensures forall i :: 0 <= i < NodeGpio.GpioCount ==> (Bit(frame[1] as bv8, i) <==> gpio.levels[i])
      ensures adc.chselr == NodeAdc.ChannelConfiguration(conf.Channels())
    {
      var words := ConvertInputs();
      var gpioValue := gpio.ReadGpioValue();
      frame := Pack(gpioValue as int, words);
      assert gpioValue == frame[1] as bv8;
    }

    /** The analog half of `send_measured_data`: `adc_convert` over the
        configured mask into four zeroed words, then A2 and the battery put in
        their slots. */
    method ConvertInputs() returns (words: seq<u16>)
      requires NodeAdc.Selected(conf.Channels(), NodeAdc.InputCount) <= |adc.conversions|
      modifies adc`chselr, adc`conversions
      ensures |words| == NodeAdc.InputCount
      ensures words == SlotOrder(conf.Channels(),
        NodeAdc.Converted(conf.Channels(), old(adc.conversions), NodeAdc.InputCount))
      ensures adc.chselr == NodeAdc.ChannelConfiguration(conf.Channels())
    {
      var channels := conf.Channels();
      var results := new u16[NodeAdc.InputCount](_ => 0);
      adc.Convert(channels, results, NodeAdc.InputCount);
      ghost var converted := results[..];
      assert converted == results[..NodeAdc.InputCount];
      if Bit(channels, NodeAdc.A2Input) && Bit(channels, NodeAdc.BatInput) {
        var tmp := results[2];
        results[2] := results[3];
        results[3] := tmp;
        assert results[..] == SwapAsWritten(converted);
      }
      words := results[..];
    }

    /** The packing loop of `send_measured_data`. */
    static method Pack(gpioValue: byte, words: seq<u16>) returns (frame: seq<byte>)
      requires |words| == NodeAdc.InputCount
      ensures frame == TelemetryFrame(gpioValue, words)
    {
      var data := new byte[TelemetryLength](_ => 0);
      data[0] := PacketData;
      data[1] := gpioValue;
      var i := 0;
      while i < NodeAdc.InputCount
        invariant 0 <= i <= NodeAdc.InputCount
        invariant data[0] == PacketData && data[1] == gpioValue
        invariant forall k :: 0 <= k < i ==> data[2 + 2 * k] == Hi(words[k]) && data[3 + 2 * k] == Lo(words[k])
      {
        data[2 + 2 * i] := Hi(words[i]);
        data[3 + 2 * i] := Lo(words[i]);
        i := i + 1;
      }
      frame := data[..];
    }

    /** `send_measured_data`: the frame is sent asking for an acknowledgement,
        at most `ACK_RETRY_COUNT` times, and no more once one is received;
        `arrivals[i]` is what the chip takes off the air during attempt `i`. */
    method SendMeasuredData(csmaBudget: nat, ackBudget: nat, arrivals: seq<seq<Option<seq<byte>>>>)
      returns (frame: seq<byte>, attempts: nat, acked: bool, ghost outcomes: seq<bool>)
      requires Valid()
      requires NodeAdc.Selected(conf.Channels(), NodeAdc.InputCount) <= |adc.conversions|
      modifies radio, radio.dataBuffer, adc`chselr, adc`conversions
      ensures Valid() && |frame| == TelemetryLength
      ensures frame ==
        TelemetryFrame(frame[1], SlotOrder(conf.Channels(),
          NodeAdc.Converted(conf.Channels(), old(adc.conversions), NodeAdc.InputCount)))
      ensures forall i :: 0 <= i < NodeGpio.GpioCount ==> (Bit(frame[1] as bv8, i) <==> gpio.levels[i])
      ensures Retried(arrivals, ackBudget, attempts, acked, outcomes)
      ensures radio.air == old(radio.air) +
        Repeat(NodeRadio.TxFrame(GatewayAddr, radio.nodeAddr, NodeRadio.Control(true, false), frame), attempts)
    {
      frame := MeasuredFrame();
      attempts, acked, outcomes := SendWithRetries(frame, csmaBudget, ackBudget, arrivals);
    }

    /** The retry loop of `send_measured_data`: each attempt sends the frame
        asking for an acknowledgement and then waits for one; `outcomes[i]`
        records whether attempt `i` was acknowledged. */
    method SendWithRetries(frame: seq<byte>, csmaBudget: nat, ackBudget: nat, arrivals: seq<seq<Option<seq<byte>>>>)
      returns (attempts: nat, acked: bool, ghost outcomes: seq<bool>)
      requires Valid() && |frame| == TelemetryLength
      modifies radio, radio.dataBuffer
      ensures Valid()
      ensures Retried(arrivals, ackBudget, attempts, acked, outcomes)
      ensures radio.air == old(radio.air) +
        Repeat(NodeRadio.TxFrame(GatewayAddr, radio.nodeAddr, NodeRadio.Control(true, false), frame), attempts)
    {
      ghost var sent := NodeRadio.TxFrame(GatewayAddr, radio.nodeAddr, NodeRadio.Control(true, false), frame);
      assert frame[..TelemetryLength] == frame;
      attempts := 0;
      acked := false;
      outcomes := [];
      while attempts < AckRetryCount && !acked
        invariant Valid() && 0 <= attempts <= AckRetryCount
        invariant radio.air == old(radio.air) + Repeat(sent, attempts)
        invariant |outcomes| == attempts && (acked ==> attempts >= 1)
        invariant attempts >= 1 ==> outcomes[attempts - 1] == acked
        invariant forall i :: 0 <= i < attempts - 1 ==> !outcomes[i]
        invariant forall i :: 0 <= i < attempts ==>
          (outcomes[i] ==> AckWithin(Attempt(arrivals, i), ackBudget)) &&
          (AckFirst(Attempt(arrivals, i), ackBudget) ==> outcomes[i])
        decreases AckRetryCount - attempts
      {
        radio.Send(GatewayAddr, frame, TelemetryLength, true, csmaBudget);
        acked := AwaitAck(Attempt(arrivals, attempts), ackBudget);
        outcomes := outcomes + [acked];
        attempts := attempts + 1;
      }
    }

    /** One turn of `main`'s loop: ask the gateway for a configuration with a
        one-byte frame that asks for no acknowledgement, apply a configuration
        packet if one arrives in time, then report the measurements.
        `configArrivals` is what the chip takes off the air while the node
        waits for a configuration, `ackArrivals` while it waits for
        acknowledgements. */
    method Cycle(csmaBudget: nat, configArrivals: seq<Option<seq<byte>>>, configBudget: nat,
        ackArrivals: seq<seq<Option<seq<byte>>>>, ackBudget: nat)
      returns (received: Option<NodeRadio.Packet>, frame: seq<byte>, attempts: nat, acked: bool, ghost outcomes: seq<bool>)
      requires Valid()
      requires NodeAdc.InputCount <= |adc.conversions|
      modifies this`conf, gpio`calls, radio, radio.dataBuffer, adc`chselr, adc`conversions
      ensures Valid() && |frame| == TelemetryLength
      ensures received.Some? <==> FrameWithin(configArrivals, configBudget)
      ensures received.Some? ==>
        exists k: nat :: k <= configBudget && FirstFrame(configArrivals, k) &&
          NodeRadio.Carries(received.value, FrameAt(configArrivals, k))
      ensures conf == if received.Some? then UpdatedConfig(old(conf), received.value, radio.nodeAddr) else old(conf)
      ensures frame ==
        TelemetryFrame(frame[1], SlotOrder(conf.Channels(),
          NodeAdc.Converted(conf.Channels(), old(adc.conversions), NodeAdc.InputCount)))
      ensures forall i :: 0 <= i < NodeGpio.GpioCount ==> (Bit(frame[1] as bv8, i) <==> gpio.levels[i])
      ensures Retried(ackArrivals, ackBudget, attempts, acked, outcomes)
      ensures radio.air == old(radio.air) +
        [NodeRadio.TxFrame(GatewayAddr, radio.nodeAddr, NodeRadio.Control(false, false), [PacketConfig])] +
        Repeat(NodeRadio.TxFrame(GatewayAddr, radio.nodeAddr, NodeRadio.Control(true, false), frame), attempts)
    {
      radio.Send(GatewayAddr, [PacketConfig], 1, false, csmaBudget);
      assert [PacketConfig][..NodeRadio.ClampDataLen(1)] == [PacketConfig];
      var done := PacketReceived(configArrivals, configBudget);
      received := None;
      if done {
        received := Some(radio.State().packet);
        UpdateConfig();
      }
      frame, attempts, acked, outcomes := SendMeasuredData(csmaBudget, ackBudget, ackArrivals);
    }
  }
}
