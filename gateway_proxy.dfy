/** The gateway's event loop (proxy.rs): telemetry from the radio channel,
    commands from the MQTT stream and the shutdown signal, taken one at a
    time in the order `select!` happens to pick them. Decoding, publishing
    and the MQTT client are oracles; what they answered is part of each event. */
module GatewayProxy {
  import opened Base
  import opened GatewayConfig
  import GatewayRadio

  /** `PAYLOAD_ON` (util.rs). */
  const PayloadOn: string := "1"

  /** An MQTT message as `paho_mqtt` delivers it: its topic and its payload read as text. */
  datatype MqttMessage = MqttMessage(topic: string, payload: string)

  /** One item of the MQTT stream: a stream error, or a message slot that may be empty. */
  datatype StreamItem = StreamError | StreamMessage(message: Option<MqttMessage>)

  /** One wake-up of `select!`. `None` items mean that source's channel is closed. */
  datatype Event =
    | RadioEvent(buffer: Option<seq<byte>>, decodeOk: bool, mqttPublish: Result<()>, vutbrPublish: Result<()>)
    | MqttEvent(item: Option<StreamItem>)
    | ShutdownEvent(signal: Option<bool>)

  /** Bytes the UTF-8 encoding of `c` takes. */
  function Utf8Width(c: char): nat
  {
    if c as int < 0x80 then 1 else if c as int < 0x800 then 2 else if c as int < 0x1_0000 then 3 else 4
  }

  /** `str::len`: the UTF-8 byte length of `s`. */
  function Utf8Len(s: string): (n: nat)
    ensures n >= |s|
  {
    if s == [] then 0 else Utf8Width(s[0]) + Utf8Len(s[1..])
  }

  /** A payload of byte length one is exactly a single ASCII character. */
  lemma {:induction false} Utf8LenOne(s: string)
    ensures Utf8Len(s) == 1 <==> |s| == 1 && s[0] as int < 0x80
  {
    if s != [] {
      assert Utf8Len(s[1..]) >= |s| - 1;
    }
  }

  /** How `helper_mqtt_config` leaves the pins. */
  datatype ConfigUpdate = Unchanged | Updated(digital: seq<(string, DigitalPin)>)

  /** `helper_mqtt_config`: its result and what it does to the pins. */
  function MqttConfigEffect(digital: seq<(string, DigitalPin)>, wrapper: Option<StreamItem>): (Result<()>, ConfigUpdate)
  {
    match wrapper
    case None => (Ok(()), Unchanged)
    case Some(StreamError) => (Ok(()), Unchanged)
    case Some(StreamMessage(None)) => (Err(OptionError), Unchanged)
    case Some(StreamMessage(Some(message))) =>
      if Utf8Len(message.payload) == 1 then
        match SetOutputState(digital, message.topic, message.payload == PayloadOn)
        case None => (Err(OptionError), Unchanged)
        case Some(d) => (Ok(()), Updated(d))
      else (Ok(()), Unchanged)
  }

  /** `helper_mqtt_config` fails exactly on an empty message slot and on a
      one-character command for a topic no Output pin listens on; it changes
      the pins exactly on a one-character command that some Output pin
      takes, and then switches that pin on iff the payload is "1". */
  lemma MqttConfigOutcomes(digital: seq<(string, DigitalPin)>, wrapper: Option<StreamItem>)
    ensures var (r, _) := MqttConfigEffect(digital, wrapper);
      r.Err? <==>
        (wrapper == Some(StreamMessage(None)) ||
         (wrapper.Some? && wrapper.value.StreamMessage? && wrapper.value.message.Some? &&
          var m := wrapper.value.message.value;
          |m.payload| == 1 && m.payload[0] as int < 0x80 &&
          forall i :: 0 <= i < |digital| ==> !IsOutputFor(digital[i].1, m.topic)))
    ensures var (r, update) := MqttConfigEffect(digital, wrapper);
      r.Err? ==> r.error == OptionError && update.Unchanged?
    ensures var (_, update) := MqttConfigEffect(digital, wrapper);
      update.Updated? ==>
        (SameLayout(digital, update.digital) &&
         var m := wrapper.value.message.value;
         |m.payload| == 1 &&
         exists i :: 0 <= i < |digital| && IsOutputFor(digital[i].1, m.topic) &&
           update.digital[i].1.state == (m.payload[0] == '1'))
  {
    if wrapper.Some? && wrapper.value.StreamMessage? && wrapper.value.message.Some? {
      Utf8LenOne(wrapper.value.message.value.payload);
    }
  }

  /** What one event does to the loop: go on with the pins and dirty flag it
      leaves, or end `main_loop` with a result. */
  datatype Turn = Continue(digital: seq<(string, DigitalPin)>, dirty: bool) | Exit(result: Result<()>)

  function EventStep(digital: seq<(string, DigitalPin)>, dirty: bool, e: Event): Turn
  {
    match e
    case RadioEvent(buffer, decodeOk, mqttPublish, vutbrPublish) =>
      if buffer.None? then Continue(digital, dirty)
      else if !decodeOk then Exit(Err(BincodeError))
      else if mqttPublish.Err? then Exit(mqttPublish)
      else if vutbrPublish.Err? then Exit(vutbrPublish)
      else Continue(digital, dirty)
    case MqttEvent(item) =>
      (match MqttConfigEffect(digital, item)
       case (Err(err), _) => Exit(Err(err))
       case (Ok(_), Unchanged) => Continue(digital, dirty)
       case (Ok(_), Updated(d)) => Continue(d, true))
    case ShutdownEvent(signal) =>
      if signal.Some? then Exit(Ok(())) else Continue(digital, dirty)
  }

  /** Where a finite run of events leaves `main_loop`: returned at event
      `at` with `result`, or still waiting for more. */
  datatype LoopEnd =
    | Exited(result: Result<()>, at: nat, digital: seq<(string, DigitalPin)>, dirty: bool)
    | Pending(digital: seq<(string, DigitalPin)>, dirty: bool)

  function Later(end: LoopEnd, k: nat): LoopEnd
  {
    match end
    case Exited(r, at, d, dirty) => Exited(r, at + k, d, dirty)
    case Pending(_, _) => end
  }

  function RunLoop(digital: seq<(string, DigitalPin)>, dirty: bool, events: seq<Event>): LoopEnd
    decreases |events|
  {
    if events == [] then Pending(digital, dirty)
    else
      match EventStep(digital, dirty, events[0])
      case Exit(r) => Exited(r, 0, digital, dirty)
      case Continue(d, dirty') => Later(RunLoop(d, dirty', events[1..]), 1)
  }

  /** `main_loop` returns `Ok` only at a shutdown signal, and every event
      before the one it returns at let the loop go on. */
  lemma {:induction false} ExitsOkOnlyAtShutdown(digital: seq<(string, DigitalPin)>, dirty: bool, events: seq<Event>)
    ensures var end := RunLoop(digital, dirty, events);
      end.Exited? ==>
        (end.at < |events| &&
         (end.result.Ok? <==> events[end.at].ShutdownEvent?) &&
         EventStep(end.digital, end.dirty, events[end.at]) == Exit(end.result))
    decreases |events|
  {
    if events != [] {
      match EventStep(digital, dirty, events[0])
      case Exit(r) =>
      case Continue(d, dirty') =>
        ExitsOkOnlyAtShutdown(d, dirty', events[1..]);
        var end := RunLoop(d, dirty', events[1..]);
        if end.Exited? {
          assert events[1..][end.at] == events[end.at + 1];
        }
    }
  }

  /** Whatever the events, the loop changes only output states: names,
      numbers, kinds and topics stay, and a dirty node stays dirty. */
  lemma {:induction false} RunLoopKeepsLayout(digital: seq<(string, DigitalPin)>, dirty: bool, events: seq<Event>)
    ensures SameLayout(digital, RunLoop(digital, dirty, events).digital)
    ensures dirty ==> RunLoop(digital, dirty, events).dirty
    decreases |events|
  {
    if events != [] {
      match EventStep(digital, dirty, events[0])
      case Exit(r) =>
      case Continue(d, dirty') =>
        RunLoopKeepsLayout(d, dirty', events[1..]);
        var e := events[0];
        assert SameLayout(digital, d) by {
          if e.MqttEvent? && MqttConfigEffect(digital, e.item).1.Updated? {
            MqttConfigOutcomes(digital, e.item);
          }
        }
        SameLayoutTransitive(digital, d, RunLoop(d, dirty', events[1..]).digital);
    }
  }

  lemma SameLayoutTransitive(a: seq<(string, DigitalPin)>, b: seq<(string, DigitalPin)>, c: seq<(string, DigitalPin)>)
    requires SameLayout(a, b) && SameLayout(b, c)
    ensures SameLayout(a, c)
  {
  }

  /** A closed radio channel, a closed MQTT stream, an MQTT stream error and
      a closed shutdown channel are only logged: a run of them leaves the loop
      waiting, with nothing changed. */
  lemma {:induction false} ClosedSourcesOnlyLog(digital: seq<(string, DigitalPin)>, dirty: bool, events: seq<Event>)
    requires forall j :: 0 <= j < |events| ==>
      (events[j].RadioEvent? && events[j].buffer.None?) ||
      (events[j].MqttEvent? && (events[j].item.None? || events[j].item == Some(StreamError))) ||
      (events[j].ShutdownEvent? && events[j].signal.None?)
    ensures RunLoop(digital, dirty, events) == Pending(digital, dirty)
    decreases |events|
  {
    if events != [] {
      ClosedSourcesOnlyLog(digital, dirty, events[1..]);
    }
  }

  /** The proxy: the shared node configuration and the receiving end of the
      radio channel. */
  class Proxy {
    const node: Node
    const receiver: GatewayRadio.Channel

    constructor (node: Node, receiver: GatewayRadio.Channel)
      ensures this.node == node && this.receiver == receiver
    {
      this.node := node;
      this.receiver := receiver;
    }

    /** `helper_mqtt_config` on the shared configuration. */
    method HelperMqttConfig(wrapper: Option<StreamItem>) returns (r: Result<()>)
      requires node.Valid()
      modifies node`digital, node`configDirty
      ensures node.Valid()
      ensures r == MqttConfigEffect(old(node.digital), wrapper).0
      ensures match MqttConfigEffect(old(node.digital), wrapper).1
        case Unchanged => node.digital == old(node.digital) && node.configDirty == old(node.configDirty)
        case Updated(d) => node.digital == d && node.configDirty
    {
      match wrapper
      case None =>
        return Ok(());
      case Some(item) =>
        if item.StreamError? {
          return Ok(());
        }
        if item.message.None? {
          return Err(OptionError);
        }
        var message := item.message.value;
        var payload := message.payload;
        if Utf8Len(payload) == 1 {
          r := node.UpdateOutput(message.topic, payload == PayloadOn);
          if r.Err? {
            return;
          }
        }
        return Ok(());
    }

    /** One arm of the `select!` in `main_loop`: handles the event and says
        whether the loop must return, and with what. */
    method Dispatch(e: Event) returns (exit: Option<Result<()>>)
      requires node.Valid()
      modifies node`digital, node`configDirty
      ensures node.Valid()
      ensures match EventStep(old(node.digital), old(node.configDirty), e)
        case Exit(r) => exit == Some(r) && node.digital == old(node.digital) && node.configDirty == old(node.configDirty)
        case Continue(d, dirty) => exit == None && node.digital == d && node.configDirty == dirty
    {
      match e
      case RadioEvent(buffer, decodeOk, mqttPublish, vutbrPublish) =>
        if buffer.None? {
          return None;
        }
        if !decodeOk {
          return Some(Err(BincodeError));
        }
        if mqttPublish.Err? {
          return Some(mqttPublish);
        }
        if vutbrPublish.Err? {
          return Some(vutbrPublish);
        }
        return None;
      case MqttEvent(item) =>
        var r := HelperMqttConfig(item);
        return if r.Err? then Some(r) else None;
      case ShutdownEvent(signal) =>
        return if signal.Some? then Some(Ok(())) else None;
    }

    /** `main_loop` over a finite run of events: it returns at the first
        event that ends it (closing the radio receiver, explicitly on
        shutdown and by dropping it on an error), or waits for more. */
    method MainLoop(events: seq<Event>) returns (end: LoopEnd)
      requires node.Valid()
      modifies node`digital, node`configDirty, receiver`receiverClosed
      ensures node.Valid()
      ensures end == RunLoop(old(node.digital), old(node.configDirty), events)
      ensures node.digital == end.digital && node.configDirty == end.dirty
      ensures receiver.receiverClosed == (end.Exited? || old(receiver.receiverClosed))
    {
      var i := 0;
      while i < |events|
        invariant 0 <= i <= |events| && node.Valid()
        invariant receiver.receiverClosed == old(receiver.receiverClosed)
        invariant RunLoop(old(node.digital), old(node.configDirty), events) ==
          Later(RunLoop(node.digital, node.configDirty, events[i..]), i)
        decreases |events| - i
      {
        assert events[i..][1..] == events[i + 1..];
        var exit := Dispatch(events[i]);
        if exit.Some? {
          receiver.Close();
          return Exited(exit.value, i, node.digital, node.configDirty);
        }
        i := i + 1;
      }
      return Pending(node.digital, node.configDirty);
    }
  }
}
