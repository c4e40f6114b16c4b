/** The node's RFM69 radio driver (rfm69.c): the driver state kept in
    `current_state`, the chip's register file as the driver reads and writes
    it over SPI, and the frame format it puts into and takes out of the
    chip's FIFO. A frame in the FIFO is `[len + 3, target, sender, control]
    ++ data`, the same layout the gateway uses.

    The register map header of the driver is not part of this model; the
    register addresses and bit values below are those of the SX1231 register
    map the RFM69 module implements, and the driver limits (61 data bytes,
    control bits 0x80 and 0x40, a CSMA threshold of -90 dBm) are those of the
    LowPowerLab driver this one follows. */
module NodeRadio {
  import opened Base

  // ------------------------------------------------------------ constants

  const RegFifo: byte := 0x00
  const RegOpMode: byte := 0x01
  const RegRssiValue: byte := 0x24
  const RegDioMapping1: byte := 0x25
  const RegIrqFlags2: byte := 0x28
  const RegPacketConfig2: byte := 0x3D
  const RegAesKey1: byte := 0x3E
  /** Number of addressable registers: `read_reg` and `write_reg` use 7 address bits. */
  const RegCount: nat := 0x80
  const AesKeyLength: nat := 16

  /** `RF_IRQFLAGS2_PAYLOADREADY`. */
  const PayloadReady: byte := 0x04
  /** `RF_DIOMAPPING1_DIO0_01`: DIO0 signals "payload ready" in receive mode. */
  const Dio0PayloadReady: byte := 0x40

  /** `RF69_MAX_DATA_LEN`. */
  const MaxDataLen: nat := 61
  /** The packet's data buffer: the data and a terminating NUL (`memset` of `RF69_MAX_DATA_LEN + 1`). */
  const BufferSize: nat := MaxDataLen + 1
  /** The largest length byte a frame with `MaxDataLen` data bytes carries. */
  const MaxFrameLen: nat := MaxDataLen + 3
  /** The clamp the interrupt handler applies to the received length byte as written. */
  const ClampAsWritten: nat := 66

  /** `RFM69_CTL_SENDACK`: the frame is an acknowledgement. */
  const CtlSendAck: byte := 0x80
  /** `RFM69_CTL_REQACK`: the sender asks for an acknowledgement. */
  const CtlReqAck: byte := 0x40
  /** `CSMA_LIMIT`, in dBm: the channel is free below this level. */
  const CsmaLimit: int := -90

  // ------------------------------------------------------------ bits

  /** `b & m != 0` for a one-bit mask `m`. */
  predicate HasMask(b: byte, m: byte)
    requires m > 0
  {
    (b / m) % 2 == 1
  }

  datatype Mode = Standby | Transmit | Receive | Synthesizer | Sleep

  /** The `RF_OPMODE_*` value of a mode: bits 4..2 of `RegOpMode`. */
  function ModeBits(m: Mode): byte
  {
    match m
    case Sleep => 0x00
    case Standby => 0x04
    case Synthesizer => 0x08
    case Transmit => 0x0C
    case Receive => 0x10
  }

  /** Bits 4..2 of an operating-mode register value, in place. */
  function ModeField(v: byte): byte
  {
    ((v / 4) % 8) * 4
  }

  /** `(v & 0xE3) | ModeBits(m)`: the mode field replaced, every other bit kept. */
  function WithMode(v: byte, m: Mode): (r: byte)
    ensures ModeField(r) == ModeBits(m)
    ensures r / 32 == v / 32 && r % 4 == v % 4
  {
    ModePlacement(v / 32, ModeBits(m), v % 4);
    (v / 32) * 32 + ModeBits(m) + v % 4
  }

  /** The three fields of a value `q * 32 + bits + low` with `bits` a mode. */
  lemma ModePlacement(q: int, bits: byte, low: int)
    requires 0 <= q < 8 && bits % 4 == 0 && bits < 32 && 0 <= low < 4
    ensures var r := q * 32 + bits + low;
      ((r / 4) % 8) * 4 == bits && r / 32 == q && r % 4 == low
  {
    var r := q * 32 + bits + low;
    var k := bits / 4;
    assert r == 4 * (8 * q + k) + low;
    assert r / 4 == 8 * q + k;
    assert (r / 4) % 8 == k;
    assert r == 32 * q + (4 * k + low);
  }

  /** `(v & 0xFE) | bit`: bit 0 of `RegPacketConfig2` switches AES on. */
  function WithAes(v: byte, on: bool): (r: byte)
    ensures r % 2 == (if on then 1 else 0) && r / 2 == v / 2
  {
    (v / 2) * 2 + (if on then 1 else 0)
  }

  /** `(v & 0xFB) | RF_PACKET2_RXRESTART`: bit 2 of `RegPacketConfig2` restarts reception. */
  function WithRxRestart(v: byte): (r: byte)
    ensures HasMask(r, 0x04)
    ensures r / 8 == v / 8 && r % 4 == v % 4
  {
    (v / 8) * 8 + 4 + v % 4
  }

  /** The interrupt flag register with "payload ready" raised, every other flag kept. */
  function WithPayloadReady(v: byte): (r: byte)
    ensures HasMask(r, PayloadReady)
    ensures r % 4 == v % 4 && r / 8 == v / 8
  {
    if HasMask(v, PayloadReady) then v else v + PayloadReady
  }

  /** `rfm69_read_rssi`: `-RegRssiValue >> 1` on a signed 16-bit value, an
      arithmetic shift, so the half is rounded down. */
  function Rssi(v: byte): (dbm: int)
    ensures 2 * dbm <= -(v as int) < 2 * dbm + 2
    ensures -128 <= dbm <= 0
  {
    (-(v as int)) / 2
  }

  // ------------------------------------------------------------ frames

  /** The byte at `i`, or 0 past the end. */
  function At(s: seq<byte>, i: nat): byte
  {
    if i < |s| then s[i] else 0
  }

  function Zeros(n: nat): (z: seq<byte>)
    ensures |z| == n && forall i :: 0 <= i < n ==> z[i] == 0
  {
    seq(n, _ => 0)
  }

  /** The control byte of `rfm69_send_frame`. */
  function Control(requestAck: bool, sendAck: bool): byte
  {
    if sendAck then CtlSendAck else if requestAck then CtlReqAck else 0
  }

  /** An acknowledgement is marked as one whenever it is asked for, and a
      frame asks for one only when it is not itself an acknowledgement. */
  lemma ControlFlags(requestAck: bool, sendAck: bool)
    ensures HasMask(Control(requestAck, sendAck), CtlSendAck) <==> sendAck
    ensures HasMask(Control(requestAck, sendAck), CtlReqAck) <==> requestAck && !sendAck
  {
  }

  /** `len` as `rfm69_send_frame` clamps it. */
  function ClampDataLen(len: byte): (n: nat)
    ensures n <= MaxDataLen && n <= len
    ensures len <= MaxDataLen ==> n == len
  {
    if len > MaxDataLen then MaxDataLen else len
  }

  /** The frame `rfm69_send_frame` writes into the FIFO. */
  function TxFrame(to: byte, from: byte, control: byte, data: seq<byte>): (frame: seq<byte>)
    requires |data| <= MaxDataLen
    ensures |frame| == |data| + 4 && frame[0] == |data| + 3
    ensures frame[4..] == data
  {
    [|data| + 3, to, from, control] + data
  }

  /** A frame as the interrupt handler takes it out of the FIFO. */
  datatype RxFrame = RxFrame(target: byte, sender: byte, control: byte, data: seq<byte>)

  /** The received length byte, clamped so that the data and its NUL fit
      the buffer. */
  function FrameLength(first: byte): (len: byte)
    ensures len <= MaxFrameLen && len - 3 < BufferSize
    ensures first <= MaxFrameLen ==> len == first
  {
    if first > MaxFrameLen then MaxFrameLen else first
  }

  /** The received length byte clamped as written (line 279). */
  function FrameLengthAsWritten(first: byte): (len: byte)
    ensures len <= ClampAsWritten
    ensures first <= ClampAsWritten ==> len == first
  {
    if first > ClampAsWritten then ClampAsWritten else first
  }

  /** The length clamp as written lets a frame through whose data and NUL
      terminator need 64 bytes of a 62-byte buffer: the write at
      `data_buffer[data_len]` (line 300) is then out of bounds, and so is
      the last byte of the copy loop. */
  lemma ClampAsWrittenOverflows()
    ensures FrameLengthAsWritten(ClampAsWritten) - 3 >= BufferSize
    ensures exists first: byte :: FrameLengthAsWritten(first) - 3 >= BufferSize
  {
    assert FrameLengthAsWritten(ClampAsWritten) - 3 >= BufferSize;
  }

  /** The `n` data bytes that follow the 4-byte header in the FIFO. */
  function Payload(fifo: seq<byte>, n: nat): (data: seq<byte>)
    ensures |data| == n && forall i :: 0 <= i < n ==> data[i] == At(fifo, 4 + i)
  {
    seq(n, i requires 0 <= i < n => At(fifo, 4 + i))
  }

  /** What the interrupt handler makes of the FIFO: nothing when the length
      byte is below 3, the header and the declared data otherwise. */
  function ParseFifo(fifo: seq<byte>): (f: Option<RxFrame>)
    ensures f.None? <==> FrameLength(At(fifo, 0)) < 3
    ensures f.Some? ==> |f.value.data| == FrameLength(At(fifo, 0)) - 3 <= MaxDataLen
  {
    var len := FrameLength(At(fifo, 0));
    if len < 3 then None
    else Some(RxFrame(At(fifo, 1), At(fifo, 2), At(fifo, 3), Payload(fifo, len - 3)))
  }

  /** A frame written by `rfm69_send_frame` is read back by the interrupt
      handler with the same addresses, control byte and data, whatever
      follows it in the FIFO. */
  lemma {:induction false} ParseTxFrame(to: byte, from: byte, control: byte, data: seq<byte>, trailing: seq<byte>)
    requires |data| <= MaxDataLen
    ensures ParseFifo(TxFrame(to, from, control, data) + trailing) == Some(RxFrame(to, from, control, data))
  {
    var fifo := TxFrame(to, from, control, data) + trailing;
    assert At(fifo, 0) == |data| + 3;
    var f := ParseFifo(fifo).value;
    assert |f.data| == |data|;
    forall i | 0 <= i < |data|
      ensures f.data[i] == data[i]
    {
      assert At(fifo, 4 + i) == fifo[4 + i] == data[i];
    }
    assert f.data == data;
  }

  // ------------------------------------------------------------ driver state

  /** `struct rfm69_packet`: the last frame received. */
  datatype Packet = Packet(senderId: byte, targetId: byte, dataLen: byte, data: seq<byte>)

  /** The part of `current_state` the receive path decides. */
  datatype RadioState = RadioState(mode: Mode, payloadLen: byte, ackReceived: bool, ackRequested: bool, packet: Packet)

  /** The state `rfm69_receive_begin` leaves: everything zero, listening. */
  function Listening(): (s: RadioState)
    ensures s.mode == Receive && s.payloadLen == 0 && !s.ackReceived && !s.ackRequested
    ensures s.packet.data == Zeros(BufferSize)
  {
    RadioState(Receive, 0, false, false, Packet(0, 0, 0, Zeros(BufferSize)))
  }

  /** `rfm69_interrupt_handler` on state `s`, with the chip's payload-ready
      flag and FIFO contents: a frame is taken out only in receive mode with
      a payload ready; a frame too short for its header restarts reception. */
  function Handled(s: RadioState, payloadReady: bool, fifo: seq<byte>): RadioState
    requires |s.packet.data| == BufferSize
  {
    if !(s.mode == Receive && payloadReady) then s else Taken(s.packet.data, fifo)
  }

  /** The state after the handler has taken the FIFO's frame over a buffer
      holding `data`: the frame's header, flags and NUL-terminated data, back
      in receive mode; or, for a frame too short for its header, a restart. */
  function Taken(data: seq<byte>, fifo: seq<byte>): RadioState
    requires |data| == BufferSize
  {
    match ParseFifo(fifo)
    case None => Listening()
    case Some(f) =>
      RadioState(Receive, |f.data| + 3, HasMask(f.control, CtlSendAck), HasMask(f.control, CtlReqAck),
                 Packet(f.sender, f.target, |f.data|, f.data + [0] + data[|f.data| + 1..]))
  }

  /** `rfm69_receive_done` on state `s`: a pending interrupt is handled
      first; then a frame is reported (and the radio goes to standby) when
      one is held in receive mode, nothing is reported while listening, and
      reception is restarted in any other mode. */
  function ReceiveDoneEffect(s: RadioState, dataAvailable: bool, payloadReady: bool, fifo: seq<byte>): (bool, RadioState)
    requires |s.packet.data| == BufferSize
  {
    var h := if dataAvailable then Handled(s, payloadReady, fifo) else s;
    if h.mode == Receive && h.payloadLen > 0 then (true, h.(mode := Standby))
    else if h.mode == Receive then (false, h)
    else (false, Listening())
  }

  /** The handler keeps the packet's invariants: the data fits the buffer,
      is NUL-terminated, and a held frame has its header. */
  lemma HandledWellFormed(s: RadioState, payloadReady: bool, fifo: seq<byte>)
    requires |s.packet.data| == BufferSize && s.packet.dataLen <= MaxDataLen
    ensures var h := Handled(s, payloadReady, fifo);
      |h.packet.data| == BufferSize && h.packet.dataLen <= MaxDataLen
  {
  }

  /** `receive_done` reports a frame only from receive mode with a payload
      held, and leaves the radio in standby then; otherwise the radio ends up
      listening. */
  lemma {:induction false} ReceiveDoneOutcome(s: RadioState, dataAvailable: bool, payloadReady: bool, fifo: seq<byte>)
    requires |s.packet.data| == BufferSize
    ensures var (done, t) := ReceiveDoneEffect(s, dataAvailable, payloadReady, fifo);
      (done ==> t.mode == Standby && t.payloadLen > 0) &&
      (!done ==> t.mode == Receive && t.payloadLen == 0)
  {
    var h := if dataAvailable then Handled(s, payloadReady, fifo) else s;
    if dataAvailable && s.mode == Receive && payloadReady {
      assert h.mode == Receive;
    }
  }

  /** A frame freshly taken out of the FIFO by `receive_done` is reported,
      with the sender, target, data and flags it carried. */
  lemma {:induction false} ReceiveDoneReportsFrame(s: RadioState, fifo: seq<byte>, f: RxFrame)
    requires |s.packet.data| == BufferSize && s.mode == Receive
    requires ParseFifo(fifo) == Some(f)
    ensures var (done, t) := ReceiveDoneEffect(s, true, true, fifo);
      done && t.packet.senderId == f.sender && t.packet.targetId == f.target &&
      t.packet.dataLen == |f.data| && t.packet.data[..|f.data|] == f.data &&
      t.packet.data[|f.data|] == 0 &&
      (t.ackReceived <==> HasMask(f.control, CtlSendAck)) &&
      (t.ackRequested <==> HasMask(f.control, CtlReqAck))
  {
    var t := ReceiveDoneEffect(s, true, true, fifo).1;
    assert t.packet.data == f.data + [0] + s.packet.data[|f.data| + 1..];
    assert t.packet.data[..|f.data|] == f.data;
  }

  /** Something the chip took off the air is a frame the handler can take. */
  predicate Parses(arrival: Option<seq<byte>>)
  {
    arrival.Some? && ParseFifo(arrival.value).Some?
  }

  /** Something the chip took off the air is an acknowledgement from `from`. */
  predicate AckFrom(arrival: Option<seq<byte>>, from: byte)
  {
    Parses(arrival) && ParseFifo(arrival.value).value.sender == from &&
    HasMask(ParseFifo(arrival.value).value.control, CtlSendAck)
  }

  /** The packet holds frame `f`: its addresses and its NUL-terminated data. */
  predicate Carries(p: Packet, f: RxFrame)
  {
    p.senderId == f.sender && p.targetId == f.target && p.dataLen == |f.data| &&
    |f.data| < |p.data| && p.data[..|f.data|] == f.data && p.data[|f.data|] == 0
  }

  /** The state holds frame `f`: its packet and its two flags. */
  predicate Holds(s: RadioState, f: RxFrame)
  {
    Carries(s.packet, f) &&
    (s.ackReceived <==> HasMask(f.control, CtlSendAck)) && (s.ackRequested <==> HasMask(f.control, CtlReqAck))
  }

  /** One `receive_done` poll, after the chip has taken `arrival` off the air
      (its FIFO then holds it, "payload ready" is raised and the interrupt is
      pending). Outside receive mode the poll reports nothing and starts
      listening afresh. While listening with nothing held and no other
      interrupt pending, it reports a frame exactly when one arrived that the
      handler can take, and then holds that frame. */
  lemma {:induction false} PollOutcome(s: RadioState, dataAvailable: bool, payloadReady: bool, fifo: seq<byte>,
      arrival: Option<seq<byte>>)
    requires |s.packet.data| == BufferSize
    requires arrival.Some? ==> dataAvailable && payloadReady && fifo == arrival.value
    ensures var (done, t) := ReceiveDoneEffect(s, dataAvailable, payloadReady, fifo);
      (s.mode != Receive ==> !done && t == Listening()) &&
      (s.mode == Receive && s.payloadLen == 0 && (dataAvailable <==> arrival.Some?) ==>
        (done <==> Parses(arrival)) && (done ==> Holds(t, ParseFifo(arrival.value).value)))
  {
    if s.mode == Receive && s.payloadLen == 0 && arrival.Some? && Parses(arrival) {
      var f := ParseFifo(arrival.value).value;
      ReceiveDoneReportsFrame(s, fifo, f);
    }
  }

  /** `rfm69_can_send` on state `s` with the chip's RSSI register: the
      channel is taken (and the radio leaves receive mode) only when it is
      listening with nothing received and the signal is below the CSMA limit. */
  function CanSendEffect(s: RadioState, rssiValue: byte): (bool, RadioState)
  {
    if s.mode == Receive && s.payloadLen == 0 && Rssi(rssiValue) < CsmaLimit then (true, s.(mode := Standby))
    else (false, s)
  }

  lemma CanSendOnlyWhenQuiet(s: RadioState, rssiValue: byte)
    ensures CanSendEffect(s, rssiValue).0 <==> s.mode == Receive && s.payloadLen == 0 && rssiValue > 180
    ensures CanSendEffect(s, rssiValue).1.packet == s.packet
  {
  }

  // ------------------------------------------------------------ driver

  class Rfm69 {
    /** `NODE_ADDR`, a build-time constant of the firmware. */
    const nodeAddr: byte
    const dataBuffer: array<byte>

    var mode: Mode
    var payloadLen: byte
    var dataAvailable: bool
    var ackReceived: bool
    var ackRequested: bool
    var senderId: byte
    var targetId: byte
    var dataLen: byte

    /** The chip's registers as `read_reg` returns them. */
    var regs: seq<byte>
    /** The frame the chip holds in its receive FIFO. */
    var fifo: seq<byte>
    /** Every SPI transaction: the bytes shifted out between chip select and unselect. */
    var bus: seq<seq<byte>>
    /** Every frame loaded into the FIFO for transmission. */
    var air: seq<seq<byte>>

    predicate Valid()
      reads this`regs, this`mode, this`dataLen, this`payloadLen
    {
      dataBuffer.Length == BufferSize && |regs| == RegCount &&
      ModeField(regs[RegOpMode]) == ModeBits(mode) &&
      dataLen <= MaxDataLen && payloadLen <= MaxFrameLen
    }

    function State(): RadioState
      reads this`mode, this`payloadLen, this`ackReceived, this`ackRequested, this`senderId,
        this`targetId, this`dataLen, dataBuffer
    {
      RadioState(mode, payloadLen, ackReceived, ackRequested, Packet(senderId, targetId, dataLen, dataBuffer[..]))
    }

    /** `rfm69_setup`: the state zeroed and the radio in standby; `regs` is
        the register file the setup's configuration table leaves. */
    constructor (nodeAddr: byte, regs: seq<byte>)
      requires |regs| == RegCount && ModeField(regs[RegOpMode]) == ModeBits(Standby)
      ensures Valid() && this.nodeAddr == nodeAddr && this.regs == regs
      ensures State() == RadioState(Standby, 0, false, false, Packet(0, 0, 0, Zeros(BufferSize)))
      ensures !dataAvailable && fifo == [] && bus == [] && air == []
    {
      this.nodeAddr := nodeAddr;
      dataBuffer := new byte[BufferSize](_ => 0);
      mode := Standby;
      payloadLen := 0;
      dataAvailable := false;
      ackReceived := false;
      ackRequested := false;
      senderId := 0;
      targetId := 0;
      dataLen := 0;
      this.regs := regs;
      fifo := [];
      bus := [];
      air := [];
    }

    /** `exti0_1_isr`: the DIO0 interrupt only flags that data is available. */
    method InterruptRequest()
      modifies this`dataAvailable
      ensures dataAvailable
    {
      dataAvailable := true;
    }

    /** The chip takes `frame` off the air into its FIFO and raises "payload
        ready"; DIO0 then fires `exti0_1_isr`. */
    method FrameArrives(frame: seq<byte>)
      requires Valid()
      modifies this`fifo, this`regs, this`dataAvailable
      ensures Valid() && fifo == frame && dataAvailable
      ensures regs == old(regs)[RegIrqFlags2 := WithPayloadReady(old(regs)[RegIrqFlags2])]
    {
      fifo := frame;
      regs := regs[RegIrqFlags2 := WithPayloadReady(regs[RegIrqFlags2])];
      InterruptRequest();
    }

    /** `read_reg`: the address goes out with the write bit cleared. */
    method ReadReg(addr: byte) returns (val: byte)
      requires |regs| == RegCount
      modifies this`bus
      ensures bus == old(bus) + [[addr % 0x80, 0]]
      ensures val == regs[addr % 0x80]
    {
      bus := bus + [[addr % 0x80, 0]];
      val := regs[addr % 0x80];
    }

    /** `write_reg`: an address above 0x7f is ignored; otherwise the address
        goes out with the write bit set, followed by the value. */
    method WriteReg(addr: byte, val: byte)
      requires |regs| == RegCount
      modifies this`bus, this`regs
      ensures addr > 0x7f ==> bus == old(bus) && regs == old(regs)
      ensures addr <= 0x7f ==> bus == old(bus) + [[addr + 0x80, val]] && regs == old(regs)[addr := val]
    {
      if addr > 0x7f {
        return;
      }
      bus := bus + [[addr + 0x80, val]];
      regs := regs[addr := val];
    }

    /** `rfm69_set_mode`: nothing happens in the current mode; otherwise the
        mode field of `RegOpMode` is rewritten and every other bit kept. */
    method SetMode(m: Mode)
      requires Valid()
      modifies this`bus, this`regs, this`mode
      ensures Valid() && mode == m
      ensures old(mode) == m ==> bus == old(bus) && regs == old(regs)
      ensures old(mode) != m ==>
        (regs == old(regs)[RegOpMode := WithMode(old(regs)[RegOpMode], m)] &&
         bus == old(bus) + [[RegOpMode, 0], [RegOpMode + 0x80, WithMode(old(regs)[RegOpMode], m)]])
    {
      if mode == m {
        return;
      }
      var v := ReadReg(RegOpMode);
      WriteReg(RegOpMode, WithMode(v, m));
      mode := m;
    }

    /** `rfm69_avoid_rx_deadlocks`: the receive-restart bit of `RegPacketConfig2` is set. */
    method AvoidRxDeadlocks()
      requires Valid()
      modifies this`bus, this`regs
      ensures Valid()
      ensures regs == old(regs)[RegPacketConfig2 := WithRxRestart(old(regs)[RegPacketConfig2])]
    {
      var v := ReadReg(RegPacketConfig2);
      WriteReg(RegPacketConfig2, WithRxRestart(v));
    }

    /** `rfm69_receive_begin`: the packet, the payload length, both flags and
        the data buffer are zeroed, a stale payload forces a receive restart,
        DIO0 is mapped to "payload ready" and the radio listens. */
    method ReceiveBegin()
      requires Valid()
      modifies this`bus, this`regs, this`mode, this`payloadLen, this`ackReceived, this`ackRequested,
        this`senderId, this`targetId, this`dataLen, dataBuffer
      ensures Valid() && State() == Listening()
      ensures regs[RegDioMapping1] == Dio0PayloadReady
      ensures regs[RegPacketConfig2] ==
        if HasMask(old(regs)[RegIrqFlags2], PayloadReady) then WithRxRestart(old(regs)[RegPacketConfig2])
        else old(regs)[RegPacketConfig2]
      ensures forall r :: 0 <= r < RegCount && r != RegOpMode && r != RegDioMapping1 && r != RegPacketConfig2 ==>
        regs[r] == old(regs)[r]
    {
      ClearPacket();
      var flags := ReadReg(RegIrqFlags2);
      if HasMask(flags, PayloadReady) {
        AvoidRxDeadlocks();
      }
      WriteReg(RegDioMapping1, Dio0PayloadReady);
      SetMode(Receive);
    }

    /** The zeroing that opens `rfm69_receive_begin`. */
    method ClearPacket()
      requires Valid()
      modifies this`payloadLen, this`ackReceived, this`ackRequested, this`senderId, this`targetId,
        this`dataLen, dataBuffer
      ensures Valid()
      ensures State() == Listening().(mode := mode)
    {
      dataLen := 0;
      senderId := 0;
      targetId := 0;
      payloadLen := 0;
      ackRequested := false;
      ackReceived := false;
      forall i | 0 <= i < dataBuffer.Length {
        dataBuffer[i] := 0;
      }
      assert dataBuffer[..] == Zeros(BufferSize);
    }

    /** `rfm69_interrupt_handler`, with the length clamp at `MaxFrameLen`. */
    method InterruptHandler()
      requires Valid()
      modifies this`bus, this`regs, this`mode, this`payloadLen, this`ackReceived, this`ackRequested,
        this`senderId, this`targetId, this`dataLen, dataBuffer
      ensures Valid()
      ensures State() == Handled(old(State()), HasMask(old(regs)[RegIrqFlags2], PayloadReady), fifo)
    {
      if mode != Receive {
        return;
      }
      var flags := ReadReg(RegIrqFlags2);
      if !HasMask(flags, PayloadReady) {
        return;
      }
      SetMode(Standby);
      ReadFifo();
    }

    /** The burst read of the handler: header first, then either a restart
        or the data. */
    method ReadFifo()
      requires Valid()
      modifies this`bus, this`regs, this`mode, this`payloadLen, this`ackReceived, this`ackRequested,
        this`senderId, this`targetId, this`dataLen, dataBuffer
      ensures Valid()
      ensures State() == Taken(old(dataBuffer[..]), fifo)
    {
      var len := FrameLength(At(fifo, 0));
      if len < 3 {
        payloadLen := 0;
        targetId := At(fifo, 1);
        senderId := At(fifo, 2);
        bus := bus + [[RegFifo] + Zeros(4)];
        ReceiveBegin();
        return;
      }
      TakeFrame(len);
      bus := bus + [[RegFifo] + Zeros(4 + dataLen)];
      SetMode(Receive);
    }

    /** The header and the data of a frame long enough for its header. */
    method TakeFrame(len: byte)
      requires Valid() && len == FrameLength(At(fifo, 0)) && 3 <= len
      modifies this`payloadLen, this`ackReceived, this`ackRequested, this`senderId, this`targetId,
        this`dataLen, dataBuffer
      ensures Valid() && dataLen == len - 3
      ensures State() == Taken(old(dataBuffer[..]), fifo).(mode := mode)
    {
      payloadLen := len;
      targetId := At(fifo, 1);
      senderId := At(fifo, 2);
      var control := At(fifo, 3);
      dataLen := len - 3;
      ackReceived := HasMask(control, CtlSendAck);
      ackRequested := HasMask(control, CtlReqAck);
      CopyPayload(fifo, dataLen);
      assert ParseFifo(fifo) == Some(RxFrame(targetId, senderId, control, Payload(fifo, dataLen)));
    }

    /** The copy loop of the interrupt handler: `n` bytes out of the FIFO
        into the buffer, then the terminating NUL. */
    method CopyPayload(frame: seq<byte>, n: nat)
      requires dataBuffer.Length == BufferSize && n <= MaxDataLen
      modifies dataBuffer
      ensures dataBuffer[..] == Payload(frame, n) + [0] + old(dataBuffer[n + 1..])
    {
      var i := 0;
      while i < n
        invariant 0 <= i <= n
        invariant forall k :: 0 <= k < i ==> dataBuffer[k] == At(frame, 4 + k)
        invariant forall k :: i <= k < dataBuffer.Length ==> dataBuffer[k] == old(dataBuffer[k])
      {
        dataBuffer[i] := At(frame, 4 + i);
        i := i + 1;
      }
      dataBuffer[n] := 0;
      assert dataBuffer[..] == Payload(frame, n) + [0] + old(dataBuffer[n + 1..]);
    }

    /** `rfm69_receive_done`. */
    method ReceiveDone() returns (done: bool)
      requires Valid()
      modifies this`bus, this`regs, this`mode, this`payloadLen, this`ackReceived, this`ackRequested,
        this`senderId, this`targetId, this`dataLen, dataBuffer, this`dataAvailable
      ensures Valid() && !dataAvailable
      ensures (done, State()) ==
        ReceiveDoneEffect(old(State()), old(dataAvailable), HasMask(old(regs)[RegIrqFlags2], PayloadReady), fifo)
    {
      if dataAvailable {
        dataAvailable := false;
        InterruptHandler();
      }
      if mode == Receive && payloadLen > 0 {
        SetMode(Standby);
        return true;
      } else if mode == Receive {
        return false;
      }
      ReceiveBegin();
      return false;
    }

    /** `rfm69_ack_received`: a frame was reported, from `fromAddr`, marked
        as an acknowledgement. */
    method AckReceived(fromAddr: byte) returns (acked: bool)
      requires Valid()
      modifies this`bus, this`regs, this`mode, this`payloadLen, this`ackReceived, this`ackRequested,
        this`senderId, this`targetId, this`dataLen, dataBuffer, this`dataAvailable
      ensures Valid() && !dataAvailable
      ensures var (done, t) :=
          ReceiveDoneEffect(old(State()), old(dataAvailable), HasMask(old(regs)[RegIrqFlags2], PayloadReady), fifo);
        State() == t && (acked <==> done && t.packet.senderId == fromAddr && t.ackReceived)
    {
      var done := ReceiveDone();
      acked := done && senderId == fromAddr && ackReceived;
    }

    /** `rfm69_get_data`: a copy of the last packet. */
    method GetData() returns (p: Packet)
      requires Valid()
      ensures p == State().packet && |p.data| == BufferSize && p.dataLen <= MaxDataLen
    {
      p := Packet(senderId, targetId, dataLen, dataBuffer[..]);
    }

    /** `rfm69_read_rssi`. */
    method ReadRssi() returns (dbm: int)
      requires |regs| == RegCount
      modifies this`bus
      ensures dbm == Rssi(regs[RegRssiValue])
    {
      var v := ReadReg(RegRssiValue);
      dbm := -(v as int);
      dbm := dbm / 2;
    }

    /** `rfm69_can_send`: the RSSI is read only when the radio is listening
        with nothing received. */
    method CanSend() returns (free: bool)
      requires Valid()
      modifies this`bus, this`regs, this`mode
      ensures Valid()
      ensures (free, State()) == CanSendEffect(old(State()), old(regs)[RegRssiValue])
    {
      if mode == Receive && payloadLen == 0 {
        var dbm := ReadRssi();
        if dbm < CsmaLimit {
          SetMode(Standby);
          return true;
        }
      }
      return false;
    }

    /** `rfm69_send_frame`: the data length is clamped, the control byte
        chosen, and the frame written into the FIFO in one burst before the
        radio transmits and returns to standby. */
    method SendFrame(to: byte, buffer: seq<byte>, len: byte, requestAck: bool, sendAck: bool)
      requires Valid() && ClampDataLen(len) <= |buffer|
      modifies this`bus, this`regs, this`mode, this`air
      ensures Valid() && mode == Standby
      ensures air == old(air) + [TxFrame(to, nodeAddr, Control(requestAck, sendAck), buffer[..ClampDataLen(len)])]
    {
      SetMode(Standby);
      var n := ClampDataLen(len);
      var frame := [n + 3, to, nodeAddr, Control(requestAck, sendAck)];
      var i := 0;
      while i < n
        invariant 0 <= i <= n
        invariant frame == [n + 3, to, nodeAddr, Control(requestAck, sendAck)] + buffer[..i]
      {
        frame := frame + [buffer[i]];
        i := i + 1;
        assert buffer[..i] == buffer[..i - 1] + [buffer[i - 1]];
      }
      bus := bus + [[RegFifo + 0x80] + frame];
      air := air + [frame];
      SetMode(Transmit);
      SetMode(Standby);
    }

    /** `rfm69_send`: after a receive restart, the driver waits for a free
        channel, serving receptions meanwhile, for at most `budget` polls
        (the polls that fit in the CSMA time limit), then sends regardless. */
    method Send(to: byte, buffer: seq<byte>, len: byte, requestAck: bool, budget: nat)
      requires Valid() && ClampDataLen(len) <= |buffer|
      modifies this`bus, this`regs, this`mode, this`payloadLen, this`ackReceived, this`ackRequested,
        this`senderId, this`targetId, this`dataLen, dataBuffer, this`dataAvailable, this`air
      ensures Valid() && mode == Standby
      ensures air == old(air) + [TxFrame(to, nodeAddr, Control(requestAck, false), buffer[..ClampDataLen(len)])]
    {
      AvoidRxDeadlocks();
      var free := CanSend();
      var polls := 0;
      while !free && polls < budget
        invariant Valid() && air == old(air) && polls <= budget
        decreases budget - polls
      {
        var done := ReceiveDone();
        free := CanSend();
        polls := polls + 1;
      }
      SendFrame(to, buffer, len, requestAck, false);
    }

    /** `rfm69_send_ack`: as `Send`, with an empty acknowledgement to the
        sender of the packet held when the channel was taken. */
    method SendAck(budget: nat)
      requires Valid()
      modifies this`bus, this`regs, this`mode, this`payloadLen, this`ackReceived, this`ackRequested,
        this`senderId, this`targetId, this`dataLen, dataBuffer, this`dataAvailable, this`air
      ensures Valid() && mode == Standby
      ensures air == old(air) + [TxFrame(senderId, nodeAddr, CtlSendAck, [])]
    {
      AvoidRxDeadlocks();
      var free := CanSend();
      var polls := 0;
      while !free && polls < budget
        invariant Valid() && air == old(air) && polls <= budget
        decreases budget - polls
      {
        var done := ReceiveDone();
        free := CanSend();
        polls := polls + 1;
      }
      SendFrame(senderId, [], 0, false, true);
    }

    /** `rfm69_encryption_key`: in standby, a 16-byte key is written to the
        AES key registers in one burst, and the AES bit of `RegPacketConfig2`
        is set exactly when a key was given. */
    method EncryptionKey(key: Option<seq<byte>>)
      requires Valid() && (key.Some? ==> |key.value| >= AesKeyLength)
      modifies this`bus, this`regs, this`mode
      ensures Valid() && mode == Standby
      ensures regs[RegPacketConfig2] == WithAes(old(regs)[RegPacketConfig2], key.Some?)
      ensures key.Some? ==> regs[RegAesKey1..RegAesKey1 + AesKeyLength] == key.value[..AesKeyLength]
      ensures key.None? ==> regs[RegAesKey1..RegAesKey1 + AesKeyLength] == old(regs)[RegAesKey1..RegAesKey1 + AesKeyLength]
    {
      SetMode(Standby);
      if key.Some? {
        bus := bus + [[RegAesKey1 + 0x80] + key.value[..AesKeyLength]];
        regs := regs[..RegAesKey1] + key.value[..AesKeyLength] + regs[RegAesKey1 + AesKeyLength..];
      }
      var v := ReadReg(RegPacketConfig2);
      WriteReg(RegPacketConfig2, WithAes(v, key.Some?));
    }
  }
}
