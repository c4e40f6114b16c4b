# Weather station radio protocol, modelled in Dafny

This project models the radio protocol of a small weather station from both of its ends.

The first end is the Rust **gateway** on a Linux board. Its model covers:
- the frame codec (`Packet` in `radio.rs`);
- the radio transport, which acknowledges frames, answers configuration requests with the node's configuration when that configuration is dirty, and forwards telemetry;
- the node configuration store and its 5-byte downlink encoding, plus its MQTT topics (`config.rs`);
- the event loop that merges telemetry, MQTT commands and the shutdown signal (`proxy.rs`).

The second end is the C **node firmware** on the microcontroller. Its model covers:
- the RFM69 radio driver, with its mode state machine, frame transmission and interrupt-driven frame reception into `current_state` (`rfm69.c`);
- the BME280 calibration readout and integer compensation (`bme280.c`);
- the GPIO and ADC mask mappings (`gpio.c`, `adc.c`);
- the node's main cycle (`main.c`): request a configuration, apply a received one, send a 10-byte telemetry frame and retry until it is acknowledged.

How the model is built:
- Pure code becomes datatypes and functions.
- Code that updates state becomes classes whose methods are proved against specification functions:
  - `GatewayConfig.Node`, `GatewayRadio.RfmWrapper` and `GatewayProxy.Proxy` on the gateway;
  - `NodeRadio.Rfm69`, `NodeBme280.Bme280`, `NodeGpio.Gpio`, `NodeAdc.Adc` and `NodeMain.Firmware` on the node.
- The `Protocol` module joins the two ends. It proves four things:
  - the gateway's `as_bytes` and the node's `rfm69_send_frame` lay out frames identically;
  - a configuration pushed by the gateway is decoded by the node into the gateway's masks and sleep time;
  - a node's telemetry frame is accepted and acknowledged by the gateway;
  - the gateway's acknowledgement completes the node's send.

Hardware and libraries are modelled as inputs, and the model is built with oracles in their place:
- SPI, I2C, the rfm69 crate, the MQTT client and `bincode` are not modelled.
- What they return is an input of the model: register contents, FIFO contents, reception outcomes, send results and decode results.
- Every frame handed to a radio is recorded in a sequence (`sent`, `air`), as is every port-driver call (`calls`) and every SPI transaction of the node's register accessors (`bus`).
- Busy-waits bounded by `get_millis` become loops bounded by a budget parameter.

Bytes are integers in `[0, 256)` and 16-bit words are integers in `[0, 65536)`. C signed casts and 32/64-bit wrap-around are written out (`I8`, `I16`, `I32`, `I64`). Arithmetic right shifts are floor division, and C division truncates (`TDiv`).

Where the code and its design description disagree, the model follows the code:
- `send_config` returns early through `?` when the send fails, so the dirty flag stays set. The design says it is cleared regardless.
- The poll loop forwards the whole 10-byte telemetry message, marker byte included. The design says the bytes after the marker are forwarded.
- An unmatched MQTT topic and a telemetry buffer that fails to decode both end `main_loop` with an error through `?`. The design says they are logged and the loop goes on.

The three defects listed under "## Findings" are the exception. There, the driver and firmware methods carry the corrected behaviour, and a separate member models the code as written and exhibits the defect. "## Left out" names each method this concerns.

## Model

| member | source | states |
|---|---|---|
| Base.BigEndian16RoundTrip | Gateway/proxy/src/config.rs:77 | splitting a word into big-endian bytes and joining them gives the word back |
| Base.BigEndian16Split | Node/node/main.c:137 | joining two bytes big-endian and splitting the word gives the two bytes back |
| GatewayPacket.New | Gateway/proxy/src/radio.rs:121-133 | the packet has the given addresses and message; its control byte is 0x40 exactly when an ACK is requested, else 0 |
| GatewayPacket.AckFrom | Gateway/proxy/src/radio.rs:139-146 | the ACK swaps the addresses, carries no message, has control 0x80 and does not itself request an ACK |
| GatewayPacket.AsBytes | Gateway/proxy/src/radio.rs:174-182 | the frame is 4 bytes longer than the message and ends with the message |
| GatewayPacket.FromBytes | Gateway/proxy/src/radio.rs:148-164 | for a buffer it can read without panicking, the message has `buffer[0] - 3` bytes and re-encoding gives exactly the declared prefix of the buffer |
| GatewayPacket.FromBytesAsBytes | Gateway/proxy/src/radio.rs:148-182 | for every message of at most 252 bytes, decoding an encoded frame returns the same packet, even with trailing bytes after the frame |
| GatewayPacket.AsBytesFromBytes | Gateway/proxy/src/radio.rs:148-182 | re-encoding a decoded buffer and appending the rest of the buffer gives the buffer back |
| GatewayPacket.ClassifiersDisjoint | Gateway/proxy/src/radio.rs:203-209 | no message is both a configuration request and a data update |
| GatewayPacket.AckOfAckNotRequested | Gateway/proxy/src/radio.rs:139-146 | an acknowledgement never asks to be acknowledged, and acknowledging twice restores the addresses |
| GatewayConfig.Decimal | Gateway/proxy/src/config.rs:138 | the decimal rendering used in topics is non-empty, all digits, and one digit long exactly for numbers below 10 |
| GatewayConfig.DecimalInjective | Gateway/proxy/src/config.rs:138 | distinct numbers render differently |
| GatewayConfig.DigitalCommandTopicInjective | Gateway/proxy/src/config.rs:147 | distinct pin numbers get distinct command topics |
| GatewayConfig.CommandTopicIsNotStateTopic | Gateway/proxy/src/config.rs:146-147 | no command topic equals any state topic |
| GatewayConfig.WithDigitalTopics | Gateway/proxy/src/config.rs:132-150 | a digital pin keeps its number, kind and state, gets `node/digital/{n}/state` and, for an output, `node/digital/{n}/set` |
| GatewayConfig.AsTuple | Gateway/proxy/src/config.rs:234-242 | direction bit k is set exactly for an output numbered k; value bit k exactly for such an output whose state is on |
| GatewayConfig.AsByte | Gateway/proxy/src/config.rs:271-273 | bit k is set exactly for an enabled analog pin numbered k |
| GatewayConfig.DirectionMask | Gateway/proxy/src/config.rs:79-86 | bit k of the OR over all pins is set exactly when some pin drives direction bit k |
| GatewayConfig.ValueMask | Gateway/proxy/src/config.rs:79-87 | bit k of the OR over all pins is set exactly when some output numbered k is on |
| GatewayConfig.AnalogMask | Gateway/proxy/src/config.rs:89-93 | bit k of the OR over all analog pins is set exactly when some enabled pin is numbered k |
| GatewayConfig.ValueBitsAreOutputs | Gateway/proxy/src/config.rs:234-242 | every value bit set in the downlink belongs to an output pin |
| GatewayConfig.Downlink | Gateway/proxy/src/config.rs:75-95 | the downlink has 5 bytes: sleep time big-endian, then the direction, value and analog masks |
| GatewayConfig.FindOutput | Gateway/proxy/src/config.rs:53-62 | reports no pin exactly when no output has that command topic, and otherwise the first output that has it |
| GatewayConfig.SetOutputState | Gateway/proxy/src/config.rs:52-66 | fails exactly when no output has the topic; otherwise that output alone takes the new state and the pin layout is kept |
| GatewayConfig.BitsDetermineByte | Gateway/proxy/src/config.rs:79-93 | two masks with the same eight bits are equal |
| GatewayConfig.SameLayoutPins | Gateway/proxy/src/config.rs:64-66 | pins with the same layout agree on number, kind and topics |
| GatewayConfig.SameLayoutSameDirection | Gateway/proxy/src/config.rs:64-86 | changing output states never changes the direction mask |
| GatewayConfig.SameLayoutKeepsTopics | Gateway/proxy/src/config.rs:64-66 | changing output states keeps names unique and topics initialised |
| GatewayConfig.SubscribeTopics | Gateway/proxy/src/config.rs:111-121 | there are as many topics as Output pins, and a topic is subscribed exactly when it is the command topic of some Output pin |
| GatewayConfig.AnalogDiscoveries | Gateway/proxy/src/config.rs:102-106 | there are as many entries as enabled analog pins, and an entry is listed exactly when it is the sensor entry of an enabled pin, with its discovery topic |
| GatewayConfig.AnalogDiscoveriesDistinct | Gateway/proxy/src/config.rs:102-106 | with distinct pin names no entry is listed twice, so each enabled pin has exactly one entry |
| GatewayConfig.FindOutputByNumber | Gateway/proxy/src/config.rs:53-62 | once topics are initialised, the command topic of pin n finds an output exactly when an output numbered n exists, and it finds that pin |
| GatewayConfig.Node.constructor | Gateway/proxy/src/config.rs:298-307 | a freshly read configuration is dirty and has every topic derived from its pin numbers |
| GatewayConfig.Node.UpdateConfigDirty | Gateway/proxy/src/config.rs:71-73 | the dirty flag takes the given value |
| GatewayConfig.Node.InitMqttTopic | Gateway/proxy/src/config.rs:131-154 | every digital and analog pin gets the topics derived from its number, and nothing else changes |
| GatewayConfig.Node.UpdateOutput | Gateway/proxy/src/config.rs:52-69 | with a matching output: that pin's state is set and the node is dirty; without one: `OptionError`, with pins and dirty flag unchanged |
| GatewayConfig.Node.ToBytes | Gateway/proxy/src/config.rs:75-95 | the bytes accumulated by the loops are the downlink |
| GatewayConfig.Node.Discover | Gateway/proxy/src/config.rs:97-109 | one entry per digital pin, then one per enabled analog pin, then the battery sensor last |
| GatewayProxy.Utf8Len | Gateway/proxy/src/proxy.rs:80-81 | a payload's byte length is at least its character count |
| GatewayProxy.Utf8LenOne | Gateway/proxy/src/proxy.rs:81 | a payload is one byte long exactly when it is a single ASCII character |
| GatewayProxy.MqttConfigOutcomes | Gateway/proxy/src/proxy.rs:66-90 | fails exactly for an empty message, or a one-byte payload on an unknown topic, and then changes nothing; an update sets the matched output to `payload == "1"` and keeps the layout |
| GatewayProxy.ExitsOkOnlyAtShutdown | Gateway/proxy/src/proxy.rs:37-63 | the loop returns `Ok` exactly at a shutdown signal, and every earlier event let it go on |
| GatewayProxy.RunLoopKeepsLayout | Gateway/proxy/src/proxy.rs:37-63 | no sequence of events changes the pins' layout or clears the dirty flag |
| GatewayProxy.ClosedSourcesOnlyLog | Gateway/proxy/src/proxy.rs:49-57 | closed channels, stream errors and closed streams only log: the loop keeps waiting with nothing changed |
| GatewayProxy.Proxy.constructor | Gateway/proxy/src/proxy.rs:23-35 | the proxy holds the shared node and the radio channel |
| GatewayProxy.Proxy.HelperMqttConfig | Gateway/proxy/src/proxy.rs:66-90 | returns and applies the outcome the specification of an MQTT item gives |
| GatewayProxy.Proxy.Dispatch | Gateway/proxy/src/proxy.rs:42-58 | one `select!` arm: exit with the event's result, or go on with the node as the event leaves it |
| GatewayProxy.Proxy.MainLoop | Gateway/proxy/src/proxy.rs:37-63 | ends where the event-run specification ends; the receiver is closed exactly when the loop returns |
| GatewayRadio.AckExactlyWhenRequested | Gateway/proxy/src/radio.rs:27-36 | `receive` sends one ACK when the packet asks for one and is addressed to the gateway, none otherwise |
| GatewayRadio.AckFrameDecodes | Gateway/proxy/src/radio.rs:31-34 | the ACK sent decodes to `ack_from` of the packet: from the gateway, back to the sender |
| GatewayRadio.RunStep | Gateway/proxy/src/radio.rs:83-106 | running n + 1 turns is running n turns and then one more |
| GatewayRadio.RunAppendsDataUpdates | Gateway/proxy/src/radio.rs:95-102 | the loop only appends: frames sent and messages forwarded extend the earlier ones, at most one message per turn, and each is a data update |
| GatewayRadio.RunForwardsNothing | Gateway/proxy/src/radio.rs:90-105 | nothing is forwarded exactly when no turn received a data update |
| GatewayRadio.NoneSplit | Gateway/proxy/src/radio.rs:95-105 | no turn forwards exactly when no earlier turn forwards and the last turn does not |
| GatewayRadio.ConfigPushedAtMostOnce | Gateway/proxy/src/radio.rs:44-56 | after a successful push, a second configuration request sends only the ACKs and pushes nothing |
| GatewayRadio.Channel.constructor | Gateway/proxy/src/radio.rs:78 | a new channel is empty and open |
| GatewayRadio.Channel.Send | Gateway/proxy/src/radio.rs:96-101 | delivers exactly when the receiver is open, appending the item |
| GatewayRadio.Channel.Close | Gateway/proxy/src/proxy.rs:60 | the receiver is closed |
| GatewayRadio.RfmWrapper.constructor | Gateway/proxy/src/radio.rs:19-25 | the wrapper keeps the gateway address and has sent nothing |
| GatewayRadio.RfmWrapper.Receive | Gateway/proxy/src/radio.rs:27-36 | sends the ACK frames the packet calls for and returns its message, or the driver's error |
| GatewayRadio.RfmWrapper.Send | Gateway/proxy/src/radio.rs:38-42 | sends one frame from the gateway to `to` without an ACK request, and reports the driver's result |
| GatewayRadio.RfmWrapper.SendConfig | Gateway/proxy/src/radio.rs:44-56 | dirty: one frame `[0x02] ++ to_bytes()` to the node, and dirty afterwards exactly when it failed; clean: nothing sent and still clean |
| GatewayRadio.RfmWrapper.PollOnce | Gateway/proxy/src/radio.rs:83-106 | one turn sends and updates the dirty flag as its specification says, forwards a data update while the receiver is open, and stops only on a closed receiver |
| GatewayRadio.RfmWrapper.PollNth | Gateway/proxy/src/radio.rs:83-106 | turn n extends the trace of the first n turns by one step |
| GatewayRadio.RfmWrapper.ReceiverLoop | Gateway/proxy/src/radio.rs:77-109 | the loop leaves early only at a data update that finds the receiver closed; what it sent and forwarded is the run of the turns it took |
| NodeGpio.MappingInjective | Node/lib/periph/gpio.c:3-5 | no two digital pins share a port pin |
| NodeGpio.CallsTo | Node/lib/periph/gpio.c:7-21 | the calls that address one pin are a subsequence of the calls |
| NodeGpio.CallsToAppend | Node/lib/periph/gpio.c:8-20 | the calls that address a pin distribute over concatenation |
| NodeGpio.CallsToPair | Node/lib/periph/gpio.c:9-17 | filtering one or two calls keeps those that address the pin |
| NodeGpio.PinCallsTo | Node/lib/periph/gpio.c:9-17 | one iteration addresses only its own pin |
| NodeGpio.SetupCallsTo | Node/lib/periph/gpio.c:8-20 | pin i is addressed only by iteration i |
| NodeGpio.DioSetupPin | Node/lib/periph/gpio.c:7-21 | each pin is set up once: as an output exactly when its direction bit is set, then driven high exactly when its value bit is set; otherwise as a pulled-down input |
| NodeGpio.Gpio.constructor | Node/lib/periph/gpio.c:23-26 | the ports read the given levels and no calls have been issued |
| NodeGpio.Gpio.DioSetup | Node/lib/periph/gpio.c:7-21 | the loop issues the calls of the setup specification |
| NodeGpio.Gpio.ReadGpioValue | Node/lib/periph/gpio.c:23-31 | bit i of the result is set exactly when pin i reads high |
| NodeAdc.ChannelConfiguration | Node/lib/periph/adc.c:39-59 | input bits 0, 1, 2 and 3 select converter channels 0, 1, 9 and 8, and no other channel is selected |
| NodeAdc.Selected | Node/lib/periph/adc.c:28-29 | at most n of the first n inputs are selected |
| NodeAdc.Converted | Node/lib/periph/adc.c:28-36 | the specification of the results has exactly n entries |
| NodeAdc.SelectedMonotone | Node/lib/periph/adc.c:28-31 | a longer prefix selects at least as many inputs |
| NodeAdc.ConvertedEntries | Node/lib/periph/adc.c:28-36 | an unselected input reads 0; a selected one reads the reading ranked by the number of selected inputs below it |
| NodeAdc.SelectedInjective | Node/lib/periph/adc.c:28-31 | distinct selected inputs get distinct readings, in order |
| NodeAdc.SelectedOnto | Node/lib/periph/adc.c:28-31 | every reading consumed goes to some selected input |
| NodeAdc.ScanReadings | Node/lib/periph/adc.c:25-26 | the converter delivers one reading per selected channel |
| NodeAdc.Adc.constructor | Node/lib/periph/adc.c:24-26 | the channel selection is clear and the pending readings are given |
| NodeAdc.Adc.Convert | Node/lib/periph/adc.c:24-37 | the selection is written first; the first `len` results are zero for unselected inputs and the next reading for selected ones; the rest of the array is untouched |
| NodeAdc.Adc.Collect | Node/lib/periph/adc.c:28-36 | the loop writes the specified results and consumes one reading per selected input |
| NodeRadio.WithMode | Node/lib/rfm69.c:154-170 | `(OPMODE & 0xE3) | modebits` puts the mode in bits 2-4 and keeps the other bits |
| NodeRadio.ModePlacement | Node/lib/rfm69.c:156-168 | the mode field of the rebuilt register holds the mode bits, and the high and low bits are unchanged |
| NodeRadio.WithAes | Node/lib/rfm69.c:146 | bit 0 says whether a key is set; the other bits are kept |
| NodeRadio.WithRxRestart | Node/lib/rfm69.c:323 | the restart bit is set, bit 2 cleared first, and the other bits are kept |
| NodeRadio.Rssi | Node/lib/rfm69.c:334-339 | the negated register value is halved rounding down, in [-128, 0] dBm |
| NodeRadio.Zeros | Node/lib/rfm69.c:313 | n zero bytes |
| NodeRadio.ControlFlags | Node/lib/rfm69.c:245-250 | the ACK bit is set exactly for an ACK; the request bit exactly for a request that is not an ACK |
| NodeRadio.ClampDataLen | Node/lib/rfm69.c:240-242 | the length is clamped to 61 and kept when it fits |
| NodeRadio.TxFrame | Node/lib/rfm69.c:254-262 | the frame is `[len + 3, to, from, control] ++ data` |
| NodeRadio.FrameLength | Node/lib/rfm69.c:279 | the corrected clamp keeps the data within the 62-byte buffer and keeps every length byte a well-formed frame can carry |
| NodeRadio.FrameLengthAsWritten | Node/lib/rfm69.c:279 | the length byte is clamped to 66 as written |
| NodeRadio.ClampAsWrittenOverflows | Node/lib/rfm69.c:279-300 | the clamp as written lets the data length reach 63, past the buffer's NUL slot |
| NodeRadio.Payload | Node/lib/rfm69.c:296-298 | n bytes taken from the FIFO after the header |
| NodeRadio.ParseFifo | Node/lib/rfm69.c:278-298 | no frame exactly when the clamped length is below 3; otherwise a frame with at most 61 data bytes |
| NodeRadio.ParseTxFrame | Node/lib/rfm69.c:254-298 | the receive path parses a transmitted frame back into its addresses, control byte and data |
| NodeRadio.Listening | Node/lib/rfm69.c:306-320 | reception restarts in receive mode with no payload, no flags and a zeroed buffer |
| NodeRadio.HandledWellFormed | Node/lib/rfm69.c:273-304 | the handler keeps the data length within 61 and the buffer at 62 bytes |
| NodeRadio.ReceiveDoneOutcome | Node/lib/rfm69.c:197-210 | reports a frame only in standby with a payload held; otherwise leaves the radio listening with none |
| NodeRadio.ReceiveDoneReportsFrame | Node/lib/rfm69.c:197-210 | with an interrupt pending in receive mode, a parsed frame is reported with its addresses, data, NUL terminator and both flags |
| NodeRadio.PollOutcome | Node/lib/rfm69.c:197-210 | outside receive mode a poll reports nothing and starts listening; while listening with nothing held, it reports a frame exactly when one arrives that the handler can take, and then holds that frame's header, flags and data |
| NodeRadio.CanSendOnlyWhenQuiet | Node/lib/rfm69.c:326-332 | the channel is free exactly in receive mode with no payload and an RSSI below -90 dBm; the packet is untouched |
| NodeRadio.Rfm69.constructor | Node/lib/rfm69.c:101-102 | the driver state is zero, in standby, with empty FIFO, bus and air logs |
| NodeRadio.Rfm69.InterruptRequest | Node/lib/rfm69.c:385-388 | the ISR marks data as available |
| NodeRadio.Rfm69.FrameArrives | Node/lib/rfm69.c:385-388 | a frame the chip takes off the air is in the FIFO, "payload ready" is raised with the other flags kept, and the ISR has marked data as available |
| NodeRadio.Rfm69.ReadReg | Node/lib/rfm69.c:341-348 | sends `addr & 0x7f` and returns that register |
| NodeRadio.Rfm69.WriteReg | Node/lib/rfm69.c:350-359 | ignores addresses above 0x7f; otherwise sends `addr | 0x80` and the value, and sets that register |
| NodeRadio.Rfm69.SetMode | Node/lib/rfm69.c:149-176 | does nothing in the same mode; otherwise reads and rewrites OPMODE with the new mode bits; afterwards the mode is the requested one |
| NodeRadio.Rfm69.AvoidRxDeadlocks | Node/lib/rfm69.c:322-324 | sets the RX-restart bit of PACKETCONFIG2 |
| NodeRadio.Rfm69.ReceiveBegin | Node/lib/rfm69.c:306-320 | clears the packet and flags, restarts RX if a payload was ready, maps DIO0 and enters receive mode; no other register changes |
| NodeRadio.Rfm69.ClearPacket | Node/lib/rfm69.c:307-313 | zeroes the packet fields, payload length, both flags and the buffer |
| NodeRadio.Rfm69.InterruptHandler | Node/lib/rfm69.c:273-304 | takes the FIFO's frame only in receive mode with a payload ready, as the handler specification says |
| NodeRadio.Rfm69.ReadFifo | Node/lib/rfm69.c:275-302 | a short frame restarts reception; otherwise the frame's header, flags and NUL-terminated data are stored and reception resumes |
| NodeRadio.Rfm69.TakeFrame | Node/lib/rfm69.c:292-300 | stores the data length, both flags and the data of the parsed frame |
| NodeRadio.Rfm69.CopyPayload | Node/lib/rfm69.c:296-300 | the buffer holds the data, then a NUL, then its old tail |
| NodeRadio.Rfm69.ReceiveDone | Node/lib/rfm69.c:197-210 | handles a pending interrupt and reports as the receive-done specification says |
| NodeRadio.Rfm69.AckReceived | Node/lib/rfm69.c:229-234 | true exactly when a frame is reported from `from_addr` with the ACK flag |
| NodeRadio.Rfm69.GetData | Node/lib/rfm69.c:225-227 | returns the held packet, whose data fits the buffer |
| NodeRadio.Rfm69.ReadRssi | Node/lib/rfm69.c:334-339 | returns the RSSI of the register value |
| NodeRadio.Rfm69.CanSend | Node/lib/rfm69.c:326-332 | frees the channel as the specification says, going to standby when it does |
| NodeRadio.Rfm69.SendFrame | Node/lib/rfm69.c:236-271 | one frame with the clamped data from this node goes on the air, ending in standby |
| NodeRadio.Rfm69.Send | Node/lib/rfm69.c:188-195 | after the bounded CSMA wait, one frame without the ACK bit goes on the air |
| NodeRadio.Rfm69.SendAck | Node/lib/rfm69.c:216-223 | after the bounded CSMA wait, an empty ACK frame goes to the last sender |
| NodeRadio.Rfm69.EncryptionKey | Node/lib/rfm69.c:137-147 | in standby, loads the 16 key bytes when a key is given and sets the AES bit exactly then |
| NodeMain.AnalogMask | Node/node/main.c:140 | the low 3 bits of the received mask are kept and the battery bit is always set |
| NodeMain.ConfigFrom | Node/node/main.c:137-140 | sleep time is bytes 1-2 big-endian, direction byte 3, value byte 4, analog byte 5 masked |
| NodeMain.UpdatedConfigOutcome | Node/node/main.c:129-146 | the configuration changes only for an accepted packet, and the battery input stays selected |
| NodeMain.TelemetryFrame | Node/node/main.c:159-165 | the telemetry frame has 10 bytes |
| NodeMain.TelemetryWords | Node/node/main.c:162-165 | four words are read from a 10-byte frame |
| NodeMain.TelemetryRoundTrip | Node/node/main.c:159-165 | the frame starts with `PACKET_DATA` and the GPIO byte, and its four big-endian words read back as the ADC values |
| NodeMain.SwapAsWritten | Node/node/main.c:155-157 | swapping entries 2 and 3 keeps four entries |
| NodeMain.SlotOrder | Node/node/main.c:155-157 | reordering the results keeps four entries |
| NodeMain.Measured | Node/node/main.c:153 | `adc_convert` over a scan in channel order gives four results |
| NodeMain.SwapAsWrittenMisplacesBattery | Node/node/main.c:153-157 | with the battery alone selected, the swap puts the battery reading in the A2 slot |
| NodeMain.SlotOrderCorrect | Node/node/main.c:153-157 | after the corrected reordering, slot i holds input i's sample when it is selected and 0 otherwise |
| NodeMain.Repeat | Node/node/main.c:167-168 | n copies of a frame |
| NodeMain.Firmware.constructor | Node/node/main.c:15-20 | the initial configuration sleeps 10 s, has every pin an input and selects only the battery |
| NodeMain.Firmware.UpdateConfig | Node/node/main.c:129-146 | an accepted packet replaces the configuration and reruns the pin setup; any other packet changes nothing |
| NodeMain.Firmware.PacketReceived | Node/node/main.c:119-127 | reports a frame exactly when one the handler can take arrives within the polls, and then holds the first such frame in standby; otherwise it ends listening with none; nothing is transmitted |
| NodeMain.Firmware.Poll | Node/node/main.c:121-123 | one `receive_done` poll after an arrival: none outside receive mode; while listening, a frame exactly when the arrival parses, holding it |
| NodeMain.Firmware.PollAck | Node/node/main.c:170-172 | one `ack_received` poll after an arrival: none outside receive mode; while listening, success exactly when the arrival is an acknowledgement from the gateway |
| NodeMain.Firmware.AwaitAck | Node/node/main.c:169-173 | succeeds only if an acknowledgement from the gateway arrives within the polls, always succeeds when the first frame to arrive is one, and transmits nothing |
| NodeMain.Firmware.MeasuredFrame | Node/node/main.c:150-165 | the 10-byte frame packs the GPIO bitmap and the converted inputs in slot order, after the channel selection was written |
| NodeMain.Firmware.ConvertInputs | Node/node/main.c:151-157 | the four words are the conversions of the configured inputs, in slot order |
| NodeMain.Firmware.Pack | Node/node/main.c:159-165 | the packing loop builds the telemetry frame |
| NodeMain.Firmware.SendMeasuredData | Node/node/main.c:148-179 | the telemetry frame of the converted inputs and GPIO levels is sent with an ACK request once per attempt; the attempts stop at the first acknowledged one or after 5, as `Retried` states |
| NodeMain.Firmware.SendWithRetries | Node/node/main.c:167-178 | one send per attempt; no attempt before the last was acknowledged, `acked` is the last attempt's outcome, fewer than `ACK_RETRY_COUNT` attempts only when acknowledged, and each outcome is an ACK heard in that attempt (always, when the first frame heard is one) |
| NodeMain.RetriedWithoutAck | Node/node/main.c:167-178 | when no acknowledgement arrives, the frame is sent 5 times and the send ends unacknowledged |
| NodeMain.RetriedOnce | Node/node/main.c:167-178 | when the first frame the first attempt hears is the gateway's ACK, the frame is sent once |
| NodeMain.Firmware.Cycle | Node/node/main.c:184-191 | sends `[PACKET_CONFIG]` without an ACK request; receives a packet exactly when a frame arrives in time, and then the first such frame; applies it through `update_config`; then sends the telemetry frame of the new configuration's inputs with the retries `Retried` states |
| NodeBme280.I8 | Node/lib/bme280.c:123 | a signed 8-bit cast keeps values in range and is congruent to its argument modulo 2^8 |
| NodeBme280.I16 | Node/lib/bme280.c:105-116 | a signed 16-bit cast keeps values in range and is congruent to its argument modulo 2^16 |
| NodeBme280.I32 | Node/lib/bme280.c:126-135 | 32-bit wrap-around keeps values in range and is congruent to its argument modulo 2^32 |
| NodeBme280.I64 | Node/lib/bme280.c:137-154 | 64-bit wrap-around keeps values in range and is congruent to its argument modulo 2^64 |
| NodeBme280.Signed12 | Node/lib/bme280.c:121-122 | the corrected 12-bit field is signed and keeps its low nibble |
| NodeBme280.Unsigned12 | Node/lib/bme280.c:121-122 | the 12-bit field as written is in [0, 4096) and keeps its low nibble |
| NodeBme280.DecodeCalibration | Node/lib/bme280.c:104-123 | h4 and h5 are signed 12-bit values |
| NodeBme280.DecodeCalibrationAsWritten | Node/lib/bme280.c:104-123 | as written, h4 and h5 are never negative; every other field agrees with the corrected decoding |
| NodeBme280.EncodeCalibration | Node/lib/bme280.c:96-102 | the readout has 32 bytes |
| NodeBme280.UnsignedWord | Node/lib/bme280.c:104 | a little-endian unsigned pair reads back its word |
| NodeBme280.SignedWord | Node/lib/bme280.c:105 | a little-endian signed pair reads back its word |
| NodeBme280.SignedByte | Node/lib/bme280.c:123 | the signed byte cast undoes taking a value mod 256 |
| NodeBme280.ByteSigned | Node/lib/bme280.c:123 | taking mod 256 undoes the signed byte cast |
| NodeBme280.WordOfBytes | Node/lib/bme280.c:104 | a little-endian word splits into its bytes |
| NodeBme280.SignedWordMod | Node/lib/bme280.c:105 | the signed word cast is undone mod 65536 |
| NodeBme280.UnsignedBytes | Node/lib/bme280.c:104 | the bytes of a read unsigned word are the bytes read |
| NodeBme280.SignedBytes | Node/lib/bme280.c:105 | the bytes of a read signed word are the bytes read |
| NodeBme280.NibbleBytes | Node/lib/bme280.c:121-122 | h4 and h5 fit the shared byte 29 and are read back |
| NodeBme280.HighNibble | Node/lib/bme280.c:121-122 | a 12-bit value is rebuilt from its high byte and low nibble |
| NodeBme280.BytesNibble | Node/lib/bme280.c:121-122 | bytes 28-30 are rebuilt from h4 and h5 |
| NodeBme280.WordEncoded | Node/lib/bme280.c:104-116 | each temperature and pressure word reads back from its byte pair |
| NodeBme280.TrimDecoded | Node/lib/bme280.c:104-116 | T1..T3 and P1..P9 read back from the readout |
| NodeBme280.HumidDecoded | Node/lib/bme280.c:118-123 | H1..H6 read back from the readout |
| NodeBme280.NibblesDecoded | Node/lib/bme280.c:121-122 | H4 and H5 read back from the shared bytes |
| NodeBme280.DecodeEncode | Node/lib/bme280.c:104-123 | decoding the readout of a calibration gives it back |
| NodeBme280.EncodeDecode | Node/lib/bme280.c:104-123 | every 32-byte readout is the readout of its decoded calibration |
| NodeBme280.ReadoutByteDecoded | Node/lib/bme280.c:104-123 | each readout byte is restored by decoding |
| NodeBme280.AsWrittenLosesSign | Node/lib/bme280.c:121 | as written, the calibration H4 = -1 is read as 4095; corrected, as -1 |
| NodeBme280.Raw20 | Node/lib/bme280.c:60 | the raw temperature and pressure reading is a 20-bit value |
| NodeBme280.Raw20Fields | Node/lib/bme280.c:60 | the three register bytes are fields of the raw value |
| NodeBme280.CompensateTemp | Node/lib/bme280.c:126-135 | the temperature in 0.01 degrees is a 24-bit signed value |
| NodeBme280.CompensateTempMonotone | Node/lib/bme280.c:126-135 | with `dig_T3` zero and `dig_T2` positive, a higher raw reading never gives a lower temperature while `var1`'s product fits 32 bits |
| NodeBme280.CompensatePress | Node/lib/bme280.c:137-154 | the pressure is a 32-bit unsigned value |
| NodeBme280.CompensateHumid | Node/lib/bme280.c:156-170 | the clamped humidity lies in [0, 102400] |
| NodeBme280.PressureGuard | Node/lib/bme280.c:144-147 | a zero P1 makes the divisor zero, and the pressure is 0 |
| NodeBme280.UncalibratedReadsZero | Node/lib/bme280.c:25 | with the all-zero calibration, every reading is zero |
| NodeBme280.UncalibratedTemp | Node/lib/bme280.c:126-135 | with the all-zero calibration, the temperature and `t_fine` are zero |
| NodeBme280.HumidWithoutH2 | Node/lib/bme280.c:156-170 | with H1 and H2 zero, the humidity is zero |
| NodeBme280.CorrectedZero | Node/lib/bme280.c:165-169 | a zero corrected intermediate gives zero humidity |
| NodeBme280.HumidScaleWithoutH2 | Node/lib/bme280.c:161-164 | the humidity scale is zero without H2 |
| NodeBme280.ZeroProduct | Node/lib/bme280.c:159-164 | a zero scale makes the product zero |
| NodeBme280.HumidCorrectedZero | Node/lib/bme280.c:165-166 | without H1, zero stays zero |
| NodeBme280.Pressure | Node/lib/bme280.c:65-72 | the pressure in pascals is below 2^24 |
| NodeBme280.Humidity | Node/lib/bme280.c:74-81 | the humidity reading lies in [0, 10000] and is a multiple of 100 |
| NodeBme280.Percent | Node/lib/bme280.c:79 | the whole-percent scaling lies in [0, 10000] and is a multiple of 100 |
| NodeBme280.WorkedExample | Node/lib/bme280.c:126-154 | for the datasheet-style sample the model gives `t_fine` 128422, 25.08 degrees and 100653 Pa |
| NodeBme280.ExampleTemperature | Node/lib/bme280.c:126-135 | the sample's `t_fine` is 128422 and its temperature 2508 |
| NodeBme280.ExampleTemperatureTerms | Node/lib/bme280.c:128-131 | the sample's linear and delta terms |
| NodeBme280.ExamplePressureTerms | Node/lib/bme280.c:139-144 | the sample's pressure offset, quadratic term and divisor |
| NodeBme280.ExamplePressure | Node/lib/bme280.c:148-153 | from those terms, the sample's pressure is 100653 Pa |
| NodeBme280.ExampleSquare | Node/lib/bme280.c:129-131 | the sample's quadratic temperature term |
| NodeBme280.ExampleOffset | Node/lib/bme280.c:140-142 | the sample's pressure offset |
| NodeBme280.ExampleCorrection | Node/lib/bme280.c:150-152 | the sample's pressure corrections |
| NodeBme280.ExampleCorrectionSquare | Node/lib/bme280.c:150 | the sample's P9 correction |
| NodeBme280.Bme280.constructor | Node/lib/bme280.c:25 | the calibration starts all zero, with the sensor's registers given |
| NodeBme280.Bme280.Readout | Node/lib/bme280.c:96-102 | the three I2C reads give 32 bytes |
| NodeBme280.Bme280.ReadCompensationData | Node/lib/bme280.c:95-124 | the calibration is the decoding of the readout |
| NodeBme280.Bme280.WriteRegister | Node/lib/bme280.c:83-86 | one register takes the value |
| NodeBme280.Bme280.Setup | Node/lib/bme280.c:39-44 | reads the calibration, then sets 1x oversampling for humidity, temperature and pressure |
| NodeBme280.Bme280.StartMeasurement | Node/lib/bme280.c:46-49 | sets bit 0 (forced mode) of the control register and keeps its other bits |
| NodeBme280.Bme280.MeasureDone | Node/lib/bme280.c:51-54 | done exactly when the status bit 0x08 is clear |
| NodeBme280.Bme280.CompensateTemperature | Node/lib/bme280.c:126-135 | stores `t_fine` and returns the temperature |
| NodeBme280.Bme280.GetTemp | Node/lib/bme280.c:56-63 | compensates the assembled raw reading, stores `t_fine`, and casts the result to 16 bits |
| NodeBme280.Bme280.GetPressure | Node/lib/bme280.c:65-72 | compensates with the latest `t_fine`; the result is below 2^24 Pa |
| NodeBme280.Bme280.GetHumidity | Node/lib/bme280.c:74-81 | compensates the big-endian raw reading with the latest `t_fine`; the result is in [0, 10000] |
| Protocol.SameFrameLayout | Gateway/proxy/src/radio.rs:174-182 | the gateway's frame equals the node's frame for the same addresses, ACK request and message (node side Node/lib/rfm69.c:254-262) |
| Protocol.SameAckLayout | Gateway/proxy/src/radio.rs:139-146 | the gateway's ACK is the frame the node's `send_ack` builds |
| Protocol.ConfigRequestRecognised | Node/node/main.c:185-186 | the node's request reaches the gateway as a configuration request that gets no ACK |
| Protocol.ConfigPushApplied | Node/node/main.c:129-140 | the gateway's push is applied by the node exactly when it comes from the gateway address; the node then adopts the sleep time and masks |
| Protocol.TelemetryReachesGateway | Node/node/main.c:159-168 | the node's telemetry is a data update carrying its ADC words, answered by exactly one ACK |
| Protocol.AckCompletesSend | Node/lib/rfm69.c:229-234 | the gateway's ACK makes the node's `ack_received` succeed, and it counts as an acknowledgement from the gateway for the retry loop |

## Left out

- Radio hardware setup: the rfm69 crate, SPI and chip-select setup on the gateway, and `rfm69_setup` on the node. This includes the register table it writes, the sync-register handshake and the mode-ready wait. `recv` and `send` are oracles given as inputs.
- `rfm69_sleep`, `rfm69_wakeup` and `rfm69_read_all_regs`: power and debug plumbing around `set_mode`. The interrupt setup and disable calls are also out.
- The register map header of the node driver is not part of this model. The register addresses and bit values are those of the SX1231 register map. The data limit of 61 bytes, the control bits 0x80 and 0x40 and the CSMA threshold of -90 dBm are those of the LowPowerLab RFM69 driver.
- The node address `NODE_ADDR` is a build-time constant. It is a constructor parameter of the radio.
- Busy-waits are not modelled as time:
  - the flag spins at Node/lib/rfm69.c:173, 238 and 269 are taken to finish;
  - the CSMA and reception waits bounded by `get_millis` become loops bounded by a budget parameter;
  - the ADC end-of-conversion spin delivers the next pending reading.
- The chip's own reception is an input: `arrivals[k]` is the frame it takes off the air before poll k of a wait (`Rfm69.FrameArrives`). Frames arriving during the CSMA wait of `rfm69_send` are not modelled. The wait is entered right after a send, in standby, and the first poll only starts listening.
- ParseFifo: clamps the length byte at 64, the corrected half of the rfm69.c:279 finding. The code's clamp at 66 lets `data_len` reach 62 or 63 and writes past the 62-byte buffer, which is undefined behaviour. `FrameLengthAsWritten` and `ClampAsWrittenOverflows` model that clamp.
- HandledWellFormed: is proved for the corrected clamp at 64. With the code's clamp at 66, `data_len` 62 and 63 get through (see ParseFifo).
- InterruptHandler: takes frames with the corrected clamp at 64 (see ParseFifo).
- ReadFifo: reads the data length from the corrected clamp at 64 (see ParseFifo).
- TakeFrame: stores at most 61 data bytes, following the corrected clamp. The code stores up to 63 and overflows the buffer (see ParseFifo).
- ReadCompensationData: decodes with the corrected `DecodeCalibration`, which sign-extends `h4` and `h5`. The code at bme280.c:121-122 keeps them unsigned; `DecodeCalibrationAsWritten` and `AsWrittenLosesSign` model that.
- Setup: stores the corrected calibration (see ReadCompensationData).
- ConvertInputs: applies the corrected `SlotOrder`, which swaps A2 and the battery only when both are selected. The code at main.c:155-157 swaps them always; `SwapAsWritten` and `SwapAsWrittenMisplacesBattery` model that.
- MeasuredFrame: packs the words in the corrected slot order (see ConvertInputs).
- SendMeasuredData: sends the words in the corrected slot order (see ConvertInputs).
- Cycle: sends the words in the corrected slot order (see ConvertInputs).
- The higher radio methods (`Send`, `SendAck`, `EncryptionKey`, `ReceiveBegin`) state the register and mode effects of their bus traffic, not every SPI transaction. The AES key burst is modelled as writes of the key registers.
- Concurrency: `spawn_blocking`, the mutex, the unbounded channel and `select!` fairness are not modelled. The poll loop and the event loop are run over arbitrary finite sequences of turns and events. The `ReceiverLoop` closes nothing itself; `Proxy.MainLoop` closes the receiver when it returns.
- `GatewayRadio.RfmWrapper.Receive` requires a 64-byte buffer that `from_bytes` can read (`Receivable`). A buffer it cannot read makes the Rust code panic, and a panic is not modelled.
- data.rs is not part of this model. Its `bincode` decoding is an oracle outcome of each radio event. Its 18-byte little-endian layout does not match the 10-byte big-endian frame the node sends.
- The MQTT and VUT publishing glue (home_assistant.rs, vutbr.rs) is out: each publish result is an oracle outcome of the event. The Discovery JSON shape is out too; discovery entries are values.
- Configuration file I/O and YAML parsing (`read_conf`) are out. Only the resulting state is modelled: topics initialised and the node dirty. error.rs and main.rs are also out.
- The HashMap iteration order is modelled as a sequence whose order is arbitrary. Every property is proved for every order.
- Node peripheral plumbing is out: SPI, I2C, USART, RTC, sys-tick, low-power and deep sleep, and the clock and GPIO setup in Node/node/main.c:40-117. `printf` is out as well.
- NodeBme280.Bme280: the I2C transactions are not logged. The readout, raw readings and status are slices of a 256-byte register file.
- NodeBme280.Pressure and NodeBme280.Humidity: the `float` conversions in `bme_get_pressure` and `bme_get_humidity` are modelled as exact integer arithmetic. Every value involved is below 2^24, so a float holds it exactly.
- NodeAdc.ScanReadings: the order in which the converter delivers readings (ascending channel number) is an assumption about the hardware. It is not stated in the code.
- The telemetry struct `data_t` in config.h (with temperature, pressure and humidity) is not used by `main.c`, which sends 10 bytes. The BME280 driver is modelled on its own.

## Findings

| source | as written | input that shows it | evidently intended | confidence | as-written member | corrected member |
|---|---|---|---|---|---|---|
| Node/lib/rfm69.c:279 | the received length byte is clamped to 66, so `data_len` can be 63 | a frame whose length byte is 66 or more: 63 bytes are copied into the 62-byte buffer cleared at line 313, and the NUL is written at index 63 | clamp to `RF69_MAX_DATA_LEN + 3` (64) so that the data and its NUL fit the buffer; `FrameLength` proves that bound | medium (the buffer's declaration is not part of this model), not executed | NodeRadio.ClampAsWrittenOverflows | NodeRadio.FrameLength |
| Node/lib/bme280.c:121-122 | `h4` and `h5` are assembled as unsigned 12-bit values | calibration bytes 28-29 = `0xFF, 0x0F` (H4 = -1) read as 4095 | sign-extend bit 11, because the datasheet's H4 and H5 are signed 12-bit values; `DecodeEncode` and `EncodeDecode` prove the corrected readout a bijection | high, not executed | NodeBme280.AsWrittenLosesSign | NodeBme280.DecodeCalibration |
| Node/node/main.c:155-157 | the A2 and battery results are swapped whatever inputs are selected | the default mask `BAT_CHANNEL` alone gives `[0, 0, battery, 0]`, so the battery reading lands in the A2 slot | swap only when both are converted, so that slot i holds input i; `SlotOrderCorrect` proves it for every mask | medium (it depends on the converter's scan order), not executed | NodeMain.SwapAsWrittenMisplacesBattery | NodeMain.SlotOrder |
